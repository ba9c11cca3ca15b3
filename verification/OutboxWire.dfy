/**
 What the flushes of the outbox put on the wire: the frames carry exactly the messages that
 were offered, each under the name it was offered for, and each once.
 */
module OutboxWire {
  import opened Wrappers
  import opened Framing
  import opened Outbox
  import opened OutboxRuns

  // ------------------------------------------------------- the frames of a flush

  /** What a receiver decodes from the frame is this message, as far as a frame can carry it. */
  ghost predicate Delivers(f: Frame, m: Message) {
    && DecodeMessage(f).Some?
    && DecodeMessage(f).value.id == m.id && DecodeMessage(f).value.ciphertext == m.ciphertext
    && (!(m.kind == Action && m.content == Binary) ==>
          DecodeMessage(f).value.kind == m.kind && DecodeMessage(f).value.content == m.content)
  }

  /** One frame for each entry, in order, and frame `i` is decoded to the message of entry `i`. */
  lemma FramesCarryTheEntries(q: seq<Entry>)
    requires forall i :: 0 <= i < |q| ==> IsU64(q[i].message.id)
    ensures |Frames(q)| == |q| && forall i :: 0 <= i < |q| ==> Delivers(Frames(q)[i], q[i].message)
  {
    forall i | 0 <= i < |q| ensures Delivers(Frames(q)[i], q[i].message) {
      MessageSurvivesIff(q[i].message);
    }
  }

  lemma FramesAppend(a: seq<Entry>, b: seq<Entry>)
    ensures Frames(a + b) == Frames(a) + Frames(b)
  {
  }

  // ------------------------------------------------------------ runs with a wire

  /** What the caller asked for when the message with this id was accepted. */
  datatype Order = Order(key: string, message: Message, at: nat)

  datatype Sent = Sent(key: string, frame: Frame)

  /** The world of a run, with the accepted messages by id and the frames handed to connections. */
  datatype Ledger = Ledger(world: World, orders: map<nat, Order>, wire: seq<Sent>)

  function SentUnder(key: string, frames: seq<Frame>): (r: seq<Sent>)
    ensures |r| == |frames| && forall i :: 0 <= i < |r| ==> r[i] == Sent(key, frames[i])
  {
    seq(|frames|, i requires 0 <= i < |frames| => Sent(key, frames[i]))
  }

  /** The frames a step hands over; a flush sends its entries one by one. */
  function WireOf(w: World, ev: Event): seq<Sent> {
    if ev.HandsOver? && HandOf(w, (ev.task, ev.key)) != []
    then SentUnder(ev.key, Frames(HandOf(w, (ev.task, ev.key))[..1]))
    else []
  }

  ghost function Record(t: Ledger, ev: Event): Ledger {
    Ledger(
      Step(t.world, ev),
      if ev.Accepts? && HasRoom(t.world.box, ev.key)
      then t.orders[t.world.box.nextId := Order(ev.key, ev.message, ev.now)] else t.orders,
      t.wire + WireOf(t.world, ev))
  }

  ghost function Recorded(t: Ledger, run: seq<Event>): Ledger
    decreases |run|
  {
    if run == [] then t else Recorded(Record(t, run[0]), run[1..])
  }

  const BLANK: Ledger := Ledger(START, map[], [])

  // ------------------------------------------------------------- the invariant

  /** The message is the one that was ordered, with the id it was accepted under. */
  predicate Matches(m: Message, ordered: Message) {
    m.ciphertext == ordered.ciphertext && m.kind == ordered.kind && m.content == ordered.content
  }

  predicate OnOrder(orders: map<nat, Order>, key: string, e: Entry) {
    && e.message.id in orders && orders[e.message.id].key == key && orders[e.message.id].at == e.queuedAt
    && Matches(e.message, orders[e.message.id].message)
  }

  ghost predicate AllOnOrder(orders: map<nat, Order>, key: string, q: seq<Entry>) {
    forall i :: 0 <= i < |q| ==> OnOrder(orders, key, q[i])
  }

  ghost predicate QueuesOnOrder(t: Ledger) {
    forall key :: AllOnOrder(t.orders, key, QueueOf(t.world.box.queues, key))
  }

  ghost predicate HandsOnOrder(t: Ledger) {
    forall task: nat, key: string :: AllOnOrder(t.orders, key, HandOf(t.world, (task, key)))
  }

  /** A receiver of the frame gets the message that was ordered for this name under that id. */
  ghost predicate Fulfils(orders: map<nat, Order>, s: Sent) {
    && DecodeMessage(s.frame).Some? && DecodeMessage(s.frame).value.id in orders
    && var (id, order) := (DecodeMessage(s.frame).value.id, orders[DecodeMessage(s.frame).value.id]);
       order.key == s.key && Delivers(s.frame, order.message.(id := id))
  }

  function IdOf(s: Sent): nat {
    match DecodeMessage(s.frame)
    case Some(m) => m.id
    case None => 0
  }

  /** The ids a receiver of the frames decodes. */
  function WireIds(wire: seq<Sent>): seq<nat> {
    seq(|wire|, i requires 0 <= i < |wire| => IdOf(wire[i]))
  }

  ghost predicate WireOnOrder(t: Ledger) {
    && (forall i :: 0 <= i < |t.wire| ==> Fulfils(t.orders, t.wire[i]))
    && multiset(WireIds(t.wire)) == t.world.flushed
  }

  ghost predicate Faithful(t: Ledger) {
    && (forall id :: id in t.orders ==> id < t.world.box.nextId)
    && (forall id :: id in t.orders <==> id in t.world.accepted)
    && QueuesOnOrder(t) && HandsOnOrder(t) && WireOnOrder(t)
  }

  // --------------------------------------------------------------------- steps

  lemma {:induction false} FreshPartOnOrder(orders: map<nat, Order>, key: string, q: seq<Entry>, now: nat)
    requires AllOnOrder(orders, key, q)
    ensures AllOnOrder(orders, key, FreshPart(q, now))
  {
    if q != [] {
      assert AllOnOrder(orders, key, q[1..]);
      FreshPartOnOrder(orders, key, q[1..], now);
      assert OnOrder(orders, key, q[0]);
    }
  }

  /** A new order leaves the others as they are. */
  lemma OrdersGrow(orders: map<nat, Order>, id: nat, order: Order, key: string, q: seq<Entry>)
    requires AllOnOrder(orders, key, q) && id !in orders
    ensures AllOnOrder(orders[id := order], key, q)
  {
    forall i | 0 <= i < |q| ensures OnOrder(orders[id := order], key, q[i]) { assert OnOrder(orders, key, q[i]); }
  }

  lemma OneMoreOnOrder(orders: map<nat, Order>, key: string, q: seq<Entry>, e: Entry)
    requires AllOnOrder(orders, key, q) && OnOrder(orders, key, e)
    ensures AllOnOrder(orders, key, q + [e])
  {
  }

  lemma AcceptedIsOnOrder(t: Ledger, ev: Event, key: string)
    requires Faithful(t) && ev.Accepts? && HasRoom(t.world.box, ev.key)
    ensures AllOnOrder(Record(t, ev).orders, key, QueueOf(Step(t.world, ev).box.queues, key))
  {
    var (b, orders) := (t.world.box, Record(t, ev).orders);
    var q := QueueOf(b.queues, key);
    assert AllOnOrder(t.orders, key, q);
    OrdersGrow(t.orders, b.nextId, Order(ev.key, ev.message, ev.now), key, q);
    if key == ev.key {
      var e := Entry(ev.message.(id := b.nextId), ev.now);
      OneMoreOnOrder(orders, key, q, e);
      assert QueueOf(Step(t.world, ev).box.queues, key) == q + [e];
    }
  }

  lemma AcceptStaysFaithful(t: Ledger, ev: Event)
    requires Faithful(t) && ev.Accepts? && HasRoom(t.world.box, ev.key)
    ensures QueuesOnOrder(Record(t, ev)) && HandsOnOrder(Record(t, ev))
    ensures forall i :: 0 <= i < |t.wire| ==> Fulfils(Record(t, ev).orders, t.wire[i])
  {
    var (id, order) := (t.world.box.nextId, Order(ev.key, ev.message, ev.now));
    forall key ensures AllOnOrder(Record(t, ev).orders, key, QueueOf(Record(t, ev).world.box.queues, key)) {
      AcceptedIsOnOrder(t, ev, key);
    }
    forall task: nat, key: string ensures AllOnOrder(Record(t, ev).orders, key, HandOf(t.world, (task, key))) {
      assert AllOnOrder(t.orders, key, HandOf(t.world, (task, key)));
      OrdersGrow(t.orders, id, order, key, HandOf(t.world, (task, key)));
    }
    forall i | 0 <= i < |t.wire| ensures Fulfils(Record(t, ev).orders, t.wire[i]) {
      assert Fulfils(t.orders, t.wire[i]);
    }
  }

  /** Taking, giving back and pruning only move entries or drop them. */
  lemma QueuesStayOnOrder(t: Ledger, ev: Event, key: string)
    requires QueuesOnOrder(t) && HandsOnOrder(t) && !ev.Accepts?
    ensures AllOnOrder(t.orders, key, QueueOf(Step(t.world, ev).box.queues, key))
  {
    assert AllOnOrder(t.orders, key, QueueOf(t.world.box.queues, key));
    match ev
    case GivesBack(task, k) =>
      assert AllOnOrder(t.orders, k, HandOf(t.world, (task, k)));
      assert AllOnOrder(t.orders, k, QueueOf(t.world.box.queues, k));
    case Prunes(now) => FreshPartOnOrder(t.orders, key, QueueOf(t.world.box.queues, key), now);
    case _ =>
  }

  lemma HandsStayOnOrder(t: Ledger, ev: Event, task: nat, key: string)
    requires QueuesOnOrder(t) && HandsOnOrder(t) && !ev.Accepts?
    ensures AllOnOrder(t.orders, key, HandOf(Step(t.world, ev), (task, key)))
  {
    assert AllOnOrder(t.orders, key, HandOf(t.world, (task, key)));
    assert AllOnOrder(t.orders, key, QueueOf(t.world.box.queues, key));
    if ev.TakesUp? { FreshPartOnOrder(t.orders, key, QueueOf(t.world.box.queues, key), ev.now); }
  }

  lemma WireIdsOnce(wire: seq<Sent>, s: Sent)
    ensures multiset(WireIds(wire + [s])) == multiset(WireIds(wire)) + multiset{IdOf(s)}
  {
    assert WireIds(wire + [s]) == WireIds(wire) + [IdOf(s)];
  }

  lemma HandOverStaysFaithful(t: Ledger, ev: Event)
    requires Faithful(t) && ev.HandsOver? && HandOf(t.world, (ev.task, ev.key)) != []
    requires IsU64(t.world.box.nextId)
    ensures WireOnOrder(Record(t, ev))
  {
    var hand := HandOf(t.world, (ev.task, ev.key));
    assert AllOnOrder(t.orders, ev.key, hand) && OnOrder(t.orders, ev.key, hand[0]);
    assert hand[0].message.id < t.world.box.nextId;
    FramesCarryTheEntries(hand[..1]);
    var s := Sent(ev.key, Frames(hand[..1])[0]);
    assert WireOf(t.world, ev) == [s];
    assert Delivers(s.frame, hand[0].message);
    WireIdsOnce(t.wire, s);
    assert Fulfils(t.orders, s);
  }

  /** Accepting a message is the only step that adds to the accepted ids. */
  lemma OrdersAreAccepted(t: Ledger, ev: Event)
    requires forall id :: id in t.orders ==> id < t.world.box.nextId
    requires forall id :: id in t.orders <==> id in t.world.accepted
    ensures var t' := Record(t, ev);
      && (forall id :: id in t'.orders ==> id < t'.world.box.nextId)
      && (forall id :: id in t'.orders <==> id in t'.world.accepted)
  {
  }

  lemma AcceptingStep(t: Ledger, ev: Event)
    requires Faithful(t) && ev.Accepts? && HasRoom(t.world.box, ev.key)
    ensures Faithful(Record(t, ev))
  {
    OrdersAreAccepted(t, ev);
    AcceptStaysFaithful(t, ev);
    assert Record(t, ev).wire == t.wire;
  }

  lemma PlacesStayOnOrder(t: Ledger, ev: Event)
    requires QueuesOnOrder(t) && HandsOnOrder(t) && !(ev.Accepts? && HasRoom(t.world.box, ev.key))
    ensures QueuesOnOrder(Record(t, ev)) && HandsOnOrder(Record(t, ev))
  {
    var t' := Record(t, ev);
    forall key ensures AllOnOrder(t'.orders, key, QueueOf(t'.world.box.queues, key)) {
      assert AllOnOrder(t.orders, key, QueueOf(t.world.box.queues, key));
      if !ev.Accepts? { QueuesStayOnOrder(t, ev, key); }
    }
    forall task: nat, key: string ensures AllOnOrder(t'.orders, key, HandOf(t'.world, (task, key))) {
      assert AllOnOrder(t.orders, key, HandOf(t.world, (task, key)));
      if !ev.Accepts? { HandsStayOnOrder(t, ev, task, key); }
    }
  }

  lemma WireStaysOnOrder(t: Ledger, ev: Event)
    requires Faithful(t) && !(ev.Accepts? && HasRoom(t.world.box, ev.key)) && IsU64(t.world.box.nextId)
    ensures WireOnOrder(Record(t, ev))
  {
    if ev.HandsOver? && HandOf(t.world, (ev.task, ev.key)) != [] {
      HandOverStaysFaithful(t, ev);
    } else {
      assert Record(t, ev).wire == t.wire;
    }
  }

  lemma StepStaysFaithful(t: Ledger, ev: Event)
    requires Faithful(t) && IsU64(t.world.box.nextId)
    ensures Faithful(Record(t, ev))
  {
    if ev.Accepts? && HasRoom(t.world.box, ev.key) {
      AcceptingStep(t, ev);
    } else {
      OrdersAreAccepted(t, ev);
      PlacesStayOnOrder(t, ev);
      WireStaysOnOrder(t, ev);
    }
  }

  lemma {:induction false} RecordedWorld(t: Ledger, run: seq<Event>)
    ensures Recorded(t, run).world == After(t.world, run)
    decreases |run|
  {
    if run != [] { RecordedWorld(Record(t, run[0]), run[1..]); }
  }

  lemma {:induction false} RunStaysFaithful(t: Ledger, run: seq<Event>)
    requires Faithful(t) && IsU64(Recorded(t, run).world.box.nextId)
    ensures Faithful(Recorded(t, run))
    decreases |run|
  {
    if run != [] {
      IdsOnlyGrow(t, run);
      StepStaysFaithful(t, run[0]);
      RunStaysFaithful(Record(t, run[0]), run[1..]);
    }
  }

  lemma NextIdGrows(w: World, ev: Event)
    ensures w.box.nextId <= Step(w, ev).box.nextId
  {
  }

  lemma {:induction false} IdsOnlyGrow(t: Ledger, run: seq<Event>)
    ensures t.world.box.nextId <= Recorded(t, run).world.box.nextId
    decreases |run|
  {
    if run != [] {
      NextIdGrows(t.world, run[0]);
      IdsOnlyGrow(Record(t, run[0]), run[1..]);
    }
  }

  // -------------------------------------------------------------- main results

  /**
   However flushes interleave: every frame handed to a connection for a name is decoded to a
   message that was ordered for that name, with the ciphertext, kind and content type of the
   order; no message is on the wire twice; and the accepted ids are exactly those decoded
   from the wire, dropped for age, queued, and in hand.
   */
  lemma WireCarriesTheOrders(run: seq<Event>)
    requires IsU64(Recorded(BLANK, run).world.box.nextId)
    ensures var t := Recorded(BLANK, run);
      && t.world == After(START, run)
      && (forall i :: 0 <= i < |t.wire| ==> Fulfils(t.orders, t.wire[i]))
      && t.orders.Keys == (set id | id in t.world.accepted)
      && t.world.accepted == multiset(WireIds(t.wire)) + t.world.lapsed + Gather(t.world.box.queues)
                             + Gather(t.world.hands)
      && (forall id :: id in t.world.accepted ==> t.world.accepted[id] == 1)
  {
    assert Faithful(BLANK) by {
      forall key ensures AllOnOrder(BLANK.orders, key, QueueOf(START.box.queues, key)) { }
      forall task: nat, key: string ensures AllOnOrder(BLANK.orders, key, HandOf(START, (task, key))) { }
      assert WireIds(BLANK.wire) == [];
    }
    RunStaysFaithful(BLANK, run);
    RecordedWorld(BLANK, run);
    NoMessageLostOrDuplicated(run);
  }

  lemma RecordedOnce(t: Ledger, ev: Event, rest: seq<Event>)
    ensures Recorded(t, [ev] + rest) == Recorded(Record(t, ev), rest)
  {
    assert ([ev] + rest)[1..] == rest;
  }

  lemma {:induction false} HandOversWire(t: Ledger, task: nat, key: string, n: nat, rest: seq<Event>)
    requires n <= |HandOf(t.world, (task, key))| && (forall i :: 0 <= i < |rest| ==> rest[i].GivesBack?)
    ensures Recorded(t, HandOvers(task, key, n) + rest).wire
         == t.wire + SentUnder(key, Frames(HandOf(t.world, (task, key))[..n]))
    decreases n
  {
    var hand := HandOf(t.world, (task, key));
    if n == 0 {
      assert HandOvers(task, key, 0) + rest == rest;
      QuietWire(t, rest);
      assert t.wire + SentUnder(key, Frames(hand[..0])) == t.wire;
    } else {
      var ev := HandsOver(task, key);
      var t' := Record(t, ev);
      assert HandOf(t'.world, (task, key)) == hand[1..];
      assert HandOvers(task, key, n) + rest == [ev] + (HandOvers(task, key, n - 1) + rest);
      RecordedOnce(t, ev, HandOvers(task, key, n - 1) + rest);
      HandOversWire(t', task, key, n - 1, rest);
      assert hand[..n] == hand[..1] + hand[1..][..n - 1];
      FramesAppend(hand[..1], hand[1..][..n - 1]);
      assert t.wire + SentUnder(key, Frames(hand[..n]))
          == t.wire + SentUnder(key, Frames(hand[..1])) + SentUnder(key, Frames(hand[1..][..n - 1]));
    }
  }

  lemma {:induction false} QuietWire(t: Ledger, run: seq<Event>)
    requires forall i :: 0 <= i < |run| ==> run[i].GivesBack?
    ensures Recorded(t, run).wire == t.wire
    decreases |run|
  {
    if run != [] {
      QuietWire(Record(t, run[0]), run[1..]);
      assert t.wire + [] == t.wire;
    }
  }

  /** What the phases of a flush put on the wire is what the whole flush returns as sent. */
  lemma WholeFlushWire(t: Ledger, task: nat, key: string, now: nat, room: nat)
    requires (task, key) !in t.world.hands
    ensures var sent := Sendable(t.world.box, key, now, room);
      Recorded(t, FlushPhases(task, key, now, |sent|)).wire == t.wire + SentUnder(key, Frames(sent))
  {
    var (take, back) := (TakesUp(task, key, now), GivesBack(task, key));
    var (t', n) := (Record(t, take), |Sendable(t.world.box, key, now, room)|);
    assert HandOf(t'.world, (task, key)) == FreshPart(QueueOf(t.world.box.queues, key), now);
    assert t'.wire == t.wire;
    RecordedOnce(t, take, HandOvers(task, key, n) + [back]);
    HandOversWire(t', task, key, n, [back]);
  }

  lemma {:induction false} FreshPartCounts(q: seq<Entry>, now: nat, e: Entry)
    ensures multiset(FreshPart(q, now))[e] == if now < e.queuedAt + OUTBOX_TTL then multiset(q)[e] else 0
  {
    if q != [] {
      FreshPartCounts(q[1..], now, e);
      assert q == [q[0]] + q[1..];
    }
  }

  /**
   A flush leaves something waiting only if the connection took as much as it could; what it
   sends and what it leaves are the entries that have not waited the time to live.
   */
  lemma FlushSendsWhatItCan(b: Box, key: string, now: nat, room: nat, e: Entry)
    ensures var (sent, rest) := (Sendable(b, key, now, room), QueueOf(Flush(b, key, now, room).queues, key));
      && |sent| <= room && (rest == [] || |sent| == room)
      && multiset(sent + rest)[e]
         == if now < e.queuedAt + OUTBOX_TTL then multiset(QueueOf(b.queues, key))[e] else 0
  {
    var live := FreshPart(QueueOf(b.queues, key), now);
    FlushedQueue(b, key, now, room);
    FreshPartCounts(QueueOf(b.queues, key), now, e);
    assert live == live[..Min(room, |live|)] + live[Min(room, |live|)..];
  }
}
