/**
 Whole runs of the outbox. A flush releases the lock between taking a queue and putting
 back what could not be sent, so the general run interleaves the phases of any number of
 flushes with new messages and prunes. Runs whose flushes are not interrupted keep more.
 */
module OutboxRuns {
  import opened Wrappers
  import opened Framing
  import opened Outbox

  /**
   The table and the queues that flushes hold, keyed by task and nickname. The last three
   fields are history: the ids accepted, handed to a connection, and dropped for age.
   */
  datatype World = World(
    box: Box,
    hands: map<(nat, string), seq<Entry>>,
    accepted: multiset<nat>,
    flushed: multiset<nat>,
    lapsed: multiset<nat>)

  const START: World := World(EMPTY, map[], multiset{}, multiset{}, multiset{})

  datatype Event =
    | Accepts(key: string, message: Message, now: nat)
    | SendsDirectly
    | TakesUp(task: nat, key: string, now: nat)
    | HandsOver(task: nat, key: string)
    | GivesBack(task: nat, key: string)
    | Prunes(now: nat)

  function HandOf(w: World, slot: (nat, string)): seq<Entry> {
    if slot in w.hands then w.hands[slot] else []
  }

  /**
   One step. A task works on one queue at a time, and nothing happens when it hands over
   from an empty hand.
   */
  ghost function Step(w: World, ev: Event): World {
    match ev
    case Accepts(key, message, now) =>
      w.(box := Enqueue(w.box, key, message, now),
         accepted := if HasRoom(w.box, key) then w.accepted + multiset{w.box.nextId} else w.accepted)
    case SendsDirectly => w.(box := w.box.(nextId := w.box.nextId + 1))
    case TakesUp(task, key, now) =>
      if (task, key) in w.hands then w
      else
        w.(box := Take(w.box, key, now),
           hands := w.hands[(task, key) := FreshPart(QueueOf(w.box.queues, key), now)],
           lapsed := w.lapsed + multiset(Ids(StalePart(QueueOf(w.box.queues, key), now))))
    case HandsOver(task, key) =>
      var hand := HandOf(w, (task, key));
      if hand == [] then w
      else
        w.(hands := w.hands[(task, key) := hand[1..]],
           flushed := w.flushed + multiset{hand[0].message.id})
    case GivesBack(task, key) =>
      w.(box := PutBack(w.box, key, HandOf(w, (task, key))), hands := w.hands - {(task, key)})
    case Prunes(now) =>
      w.(box := Prune(w.box, now), lapsed := w.lapsed + Gather(StaleQueues(w.box.queues, now)))
  }

  ghost function After(w: World, run: seq<Event>): World
    decreases |run|
  {
    if run == [] then w else After(Step(w, run[0]), run[1..])
  }

  // ------------------------------------------------------------- conservation

  /**
   Every accepted id is in exactly one place: flushed, dropped for age, queued, or in the
   hands of a flush. The expiry counter counts exactly the ids dropped for age.
   */
  ghost predicate Conserved(w: World) {
    && w.accepted == w.flushed + w.lapsed + Gather(w.box.queues) + Gather(w.hands)
    && w.box.expired == |w.lapsed|
    && (forall id :: id in w.accepted ==> w.accepted[id] == 1 && id < w.box.nextId)
  }

  /** One id moves from the last of four piles to the first. */
  lemma MoveId(all: multiset<nat>, a: multiset<nat>, b: multiset<nat>, c: multiset<nat>,
               d: multiset<nat>, d': multiset<nat>, id: nat)
    requires all == a + b + c + d && d == multiset{id} + d'
    ensures all == (a + multiset{id}) + b + c + d'
  {
  }

  /** One new id joins the whole and the third pile. */
  lemma AddId(all: multiset<nat>, a: multiset<nat>, b: multiset<nat>, c: multiset<nat>,
              c': multiset<nat>, d: multiset<nat>, id: nat)
    requires all == a + b + c + d && c' == c + multiset{id}
    ensures all + multiset{id} == a + b + c' + d
  {
  }

  /** Appending entries to a queue adds exactly their ids to the table. */
  lemma QueueGrows(queues: Queues, key: string, more: seq<Entry>)
    ensures Gather(queues[key := QueueOf(queues, key) + more]) == Gather(queues) + multiset(Ids(more))
  {
    var q := QueueOf(queues, key);
    IdsAppend(q, more);
    GatherPutsIn(queues, key, q + more);
    GatherWithout(queues, key, q);
  }

  /** Taking the first entry out of a hand takes exactly its id out of the hands. */
  lemma HandShrinks(hands: map<(nat, string), seq<Entry>>, slot: (nat, string))
    requires slot in hands && hands[slot] != []
    ensures Gather(hands)
         == multiset{hands[slot][0].message.id} + Gather(hands[slot := hands[slot][1..]])
  {
    var hand := hands[slot];
    GatherPutsIn(hands, slot, hand[1..]);
    assert hand == [hand[0]] + hand[1..];
    IdsAppend([hand[0]], hand[1..]);
    assert Ids([hand[0]]) == [hand[0].message.id];
  }

  lemma AcceptConserves(w: World, key: string, m: Message, now: nat)
    requires Conserved(w)
    ensures Conserved(Step(w, Accepts(key, m, now)))
  {
    var b := w.box;
    if HasRoom(b, key) {
      var e := Entry(m.(id := b.nextId), now);
      QueueGrows(b.queues, key, [e]);
      assert Ids([e]) == [b.nextId];
      var w' := Step(w, Accepts(key, m, now));
      AddId(w.accepted, w.flushed, w.lapsed, Gather(b.queues), Gather(w'.box.queues), Gather(w.hands), b.nextId);
      assert b.nextId !in w.accepted;
    }
  }

  lemma TakeConserves(w: World, task: nat, key: string, now: nat)
    requires Conserved(w)
    ensures Conserved(Step(w, TakesUp(task, key, now)))
  {
    if (task, key) !in w.hands {
      var q := QueueOf(w.box.queues, key);
      var stale := Ids(StalePart(q, now));
      GatherWithout(w.box.queues, key, q);
      PartitionConserves(q, now);
      GatherPutsIn(w.hands, (task, key), FreshPart(q, now));
      assert |multiset(stale)| == |stale|;
    }
  }

  lemma HandOverConserves(w: World, task: nat, key: string)
    requires Conserved(w)
    ensures Conserved(Step(w, HandsOver(task, key)))
  {
    var hand := HandOf(w, (task, key));
    if hand != [] {
      HandShrinks(w.hands, (task, key));
      var w' := Step(w, HandsOver(task, key));
      MoveId(w.accepted, w.flushed, w.lapsed, Gather(w.box.queues), Gather(w.hands), Gather(w'.hands),
             hand[0].message.id);
    }
  }

  /** A pile moves from the fourth place to join the third. */
  lemma MovePile(all: multiset<nat>, a: multiset<nat>, b: multiset<nat>, c: multiset<nat>,
                 d: multiset<nat>, d': multiset<nat>, more: multiset<nat>)
    requires all == a + b + c + d && d == more + d'
    ensures all == a + b + (c + more) + d'
  {
  }

  /** Emptying one hand takes exactly its ids out of the hands; a missing hand is an empty one. */
  lemma HandLeaves(w: World, slot: (nat, string))
    ensures Gather(w.hands) == multiset(Ids(HandOf(w, slot))) + Gather(w.hands - {slot})
  {
    if slot in w.hands {
      GatherTakesOut(w.hands, slot);
    } else {
      assert w.hands - {slot} == w.hands;
    }
  }

  lemma PutBackGrows(b: Box, key: string, hand: seq<Entry>)
    ensures Gather(PutBack(b, key, hand).queues) == Gather(b.queues) + multiset(Ids(hand))
  {
    if hand != [] { QueueGrows(b.queues, key, hand); }
  }

  lemma GiveBackConserves(w: World, task: nat, key: string)
    requires Conserved(w)
    ensures Conserved(Step(w, GivesBack(task, key)))
  {
    var (hand, w') := (HandOf(w, (task, key)), Step(w, GivesBack(task, key)));
    HandLeaves(w, (task, key));
    PutBackGrows(w.box, key, hand);
    MovePile(w.accepted, w.flushed, w.lapsed, Gather(w.box.queues), Gather(w.hands), Gather(w'.hands),
             multiset(Ids(hand)));
  }

  lemma StepConserves(w: World, ev: Event)
    requires Conserved(w)
    ensures Conserved(Step(w, ev))
  {
    match ev
    case Accepts(key, m, now) => AcceptConserves(w, key, m, now);
    case SendsDirectly =>
    case TakesUp(task, key, now) => TakeConserves(w, task, key, now);
    case HandsOver(task, key) => HandOverConserves(w, task, key);
    case GivesBack(task, key) => GiveBackConserves(w, task, key);
    case Prunes(now) => PruneConserves(w.box.queues, now);
  }

  lemma {:induction false} RunConservesFrom(w: World, run: seq<Event>)
    requires Conserved(w)
    ensures Conserved(After(w, run))
    decreases |run|
  {
    if run != [] {
      StepConserves(w, run[0]);
      RunConservesFrom(Step(w, run[0]), run[1..]);
    }
  }

  /** However the phases of flushes interleave, no message is lost and none is sent twice. */
  lemma NoMessageLostOrDuplicated(run: seq<Event>)
    ensures Conserved(After(START, run))
  {
    RunConservesFrom(START, run);
  }

  // ----------------------------------------------- what interleaving can break

  ghost predicate Increasing(s: seq<nat>) {
    forall i, j :: 0 <= i < j < |s| ==> s[i] < s[j]
  }

  ghost predicate OrderedQueue(w: World, key: string) {
    Increasing(Ids(QueueOf(w.box.queues, key)))
  }

  ghost predicate OrderedHand(w: World, slot: (nat, string)) {
    Increasing(Ids(HandOf(w, slot)))
  }

  /** Every queue holds its messages in the order of their ids. */
  ghost predicate QueuesInOrder(w: World) {
    forall key :: OrderedQueue(w, key)
  }

  ghost predicate HandsInOrder(w: World) {
    forall slot :: OrderedHand(w, slot)
  }

  ghost predicate AllBelow(q: seq<Entry>, bound: nat) {
    forall i :: 0 <= i < |q| ==> q[i].message.id < bound
  }

  /** Every id in a queue or a hand has been allocated. */
  ghost predicate IdsAllocated(w: World) {
    && (forall key :: AllBelow(QueueOf(w.box.queues, key), w.box.nextId))
    && (forall slot :: AllBelow(HandOf(w, slot), w.box.nextId))
  }

  /** What may be put back behind a queue: nothing, anything on an empty queue, or younger messages. */
  predicate Follows(q: seq<Entry>, hand: seq<Entry>) {
    q == [] || hand == [] || q[|q| - 1].message.id < hand[0].message.id
  }

  predicate BackInOrder(w: World, ev: Event) {
    ev.GivesBack? ==> Follows(QueueOf(w.box.queues, ev.key), HandOf(w, (ev.task, ev.key)))
  }

  lemma AppendKeepsOrderIff(q: seq<Entry>, hand: seq<Entry>)
    requires Increasing(Ids(q)) && Increasing(Ids(hand))
    ensures Increasing(Ids(q + hand)) <==> Follows(q, hand)
  {
    var (a, b, all) := (Ids(q), Ids(hand), Ids(q + hand));
    IdsAppend(q, hand);
    if Follows(q, hand) {
      forall i, j | 0 <= i < j < |all| ensures all[i] < all[j] {
        if i < |q| <= j {
          assert a[i] <= a[|q| - 1] && b[0] <= b[j - |q|];
        }
      }
    } else {
      assert all[|q| - 1] == a[|q| - 1] && all[|q|] == b[0];
    }
  }

  /** Putting back what a flush could not send keeps a queue in order exactly when it may follow it. */
  lemma PutBackKeepsOrderIff(b: Box, key: string, hand: seq<Entry>)
    requires Increasing(Ids(hand)) && Increasing(Ids(QueueOf(b.queues, key)))
    ensures Increasing(Ids(QueueOf(PutBack(b, key, hand).queues, key))) <==> Follows(QueueOf(b.queues, key), hand)
  {
    AppendKeepsOrderIff(QueueOf(b.queues, key), hand);
  }

  lemma {:induction false} FreshPartIsIncreasing(q: seq<Entry>, now: nat)
    requires Increasing(Ids(q))
    ensures Increasing(Ids(FreshPart(q, now)))
    ensures forall e :: e in FreshPart(q, now) ==> e in q
    decreases |q|
  {
    if q != [] {
      var (head, rest) := (q[0], FreshPart(q[1..], now));
      assert forall i :: 0 <= i < |q| - 1 ==> Ids(q[1..])[i] == Ids(q)[i + 1];
      FreshPartIsIncreasing(q[1..], now);
      forall e | e in rest ensures head.message.id < e.message.id {
        var i :| 0 <= i < |q[1..]| && q[1..][i] == e;
        assert Ids(q)[0] < Ids(q)[i + 1];
      }
      if IsFresh(head, now) {
        AppendKeepsOrderIff([head], rest);
      }
    }
  }

  lemma GiveBackOrderIff(w: World, task: nat, key: string)
    requires QueuesInOrder(w) && HandsInOrder(w)
    ensures QueuesInOrder(Step(w, GivesBack(task, key))) <==> BackInOrder(w, GivesBack(task, key))
  {
    var w' := Step(w, GivesBack(task, key));
    assert OrderedQueue(w, key) && OrderedHand(w, (task, key));
    PutBackKeepsOrderIff(w.box, key, HandOf(w, (task, key)));
    assert OrderedQueue(w', key) <==> BackInOrder(w, GivesBack(task, key));
    forall k | k != key ensures OrderedQueue(w', k) { assert OrderedQueue(w, k); }
  }

  lemma OtherStepsKeepOrder(w: World, ev: Event)
    requires QueuesInOrder(w) && IdsAllocated(w) && !ev.GivesBack?
    ensures QueuesInOrder(Step(w, ev))
  {
    var w' := Step(w, ev);
    forall k ensures OrderedQueue(w', k) {
      var q := QueueOf(w.box.queues, k);
      assert OrderedQueue(w, k) && AllBelow(q, w.box.nextId);
      match ev
      case Accepts(key, m, now) => AppendKeepsOrderIff(q, [Entry(m.(id := w.box.nextId), now)]);
      case Prunes(now) => FreshPartIsIncreasing(q, now);
      case _ =>
    }
  }

  lemma HandsStayOrdered(w: World, ev: Event)
    requires QueuesInOrder(w) && HandsInOrder(w)
    ensures HandsInOrder(Step(w, ev))
  {
    var w' := Step(w, ev);
    forall slot ensures OrderedHand(w', slot) {
      assert OrderedHand(w, slot) && OrderedQueue(w, slot.1);
      if ev.TakesUp? && slot == (ev.task, ev.key) {
        FreshPartIsIncreasing(QueueOf(w.box.queues, ev.key), ev.now);
      }
    }
  }

  lemma {:induction false} FreshPartIsPart(q: seq<Entry>, now: nat)
    ensures forall i :: 0 <= i < |FreshPart(q, now)| ==> FreshPart(q, now)[i] in q
    ensures |FreshPart(q, now)| <= |q|
  {
    if q != [] {
      FreshPartIsPart(q[1..], now);
      assert forall e :: e in q[1..] ==> e in q;
    }
  }

  lemma QueuesStayAllocated(w: World, ev: Event)
    requires IdsAllocated(w)
    ensures forall key :: AllBelow(QueueOf(Step(w, ev).box.queues, key), Step(w, ev).box.nextId)
  {
    var w' := Step(w, ev);
    forall key ensures AllBelow(QueueOf(w'.box.queues, key), w'.box.nextId) {
      var q := QueueOf(w.box.queues, key);
      assert AllBelow(q, w.box.nextId);
      match ev
      case Prunes(now) => FreshPartIsPart(q, now);
      case GivesBack(task, k) => assert AllBelow(HandOf(w, (task, k)), w.box.nextId);
      case _ =>
    }
  }

  lemma HandsStayAllocated(w: World, ev: Event)
    requires IdsAllocated(w)
    ensures forall slot :: AllBelow(HandOf(Step(w, ev), slot), Step(w, ev).box.nextId)
  {
    var w' := Step(w, ev);
    forall slot ensures AllBelow(HandOf(w', slot), w'.box.nextId) {
      assert AllBelow(HandOf(w, slot), w.box.nextId) && AllBelow(QueueOf(w.box.queues, slot.1), w.box.nextId);
      if ev.TakesUp? { FreshPartIsPart(QueueOf(w.box.queues, slot.1), ev.now); }
    }
  }

  ghost predicate AlwaysQueuesInOrder(w: World, run: seq<Event>)
    decreases |run|
  {
    QueuesInOrder(w) && (run != [] ==> AlwaysQueuesInOrder(Step(w, run[0]), run[1..]))
  }

  ghost predicate AlwaysBackInOrder(w: World, run: seq<Event>)
    decreases |run|
  {
    run != [] ==> BackInOrder(w, run[0]) && AlwaysBackInOrder(Step(w, run[0]), run[1..])
  }

  lemma {:induction false} OrderHoldsFromIff(w: World, run: seq<Event>)
    requires QueuesInOrder(w) && HandsInOrder(w) && IdsAllocated(w)
    ensures AlwaysQueuesInOrder(w, run) <==> AlwaysBackInOrder(w, run)
    decreases |run|
  {
    if run != [] {
      var ev := run[0];
      if ev.GivesBack? { GiveBackOrderIff(w, ev.task, ev.key); } else { OtherStepsKeepOrder(w, ev); }
      if BackInOrder(w, ev) {
        HandsStayOrdered(w, ev);
        QueuesStayAllocated(w, ev);
        HandsStayAllocated(w, ev);
        OrderHoldsFromIff(Step(w, ev), run[1..]);
      }
    }
  }

  /**
   However flushes interleave, the queues stay in order throughout a run exactly when each
   put-back finds its queue empty or ending in an older message than the first it brings.
   */
  lemma OrderHoldsIff(run: seq<Event>)
    ensures AlwaysQueuesInOrder(START, run) <==> AlwaysBackInOrder(START, run)
  {
    OrderHoldsFromIff(START, run);
  }

  predicate QueueFits(w: World, key: string) {
    |QueueOf(w.box.queues, key)| <= OUTBOX_CAPACITY
  }

  /** Every queue respects the capacity. */
  ghost predicate WithinCapacity(w: World) {
    forall key :: QueueFits(w, key)
  }

  /** A put-back for which the queue of that moment still has room. */
  predicate BackFits(w: World, ev: Event) {
    ev.GivesBack? ==>
      |QueueOf(w.box.queues, ev.key)| + |HandOf(w, (ev.task, ev.key))| <= OUTBOX_CAPACITY
  }

  ghost predicate AlwaysWithinCapacity(w: World, run: seq<Event>)
    decreases |run|
  {
    WithinCapacity(w) && (run != [] ==> AlwaysWithinCapacity(Step(w, run[0]), run[1..]))
  }

  ghost predicate AlwaysBackFits(w: World, run: seq<Event>)
    decreases |run|
  {
    run != [] ==> BackFits(w, run[0]) && AlwaysBackFits(Step(w, run[0]), run[1..])
  }

  lemma OtherStepsFit(w: World, ev: Event, key: string)
    requires QueueFits(w, key) && (ev.GivesBack? ==> ev.key != key)
    ensures QueueFits(Step(w, ev), key)
  {
    if ev.Prunes? { FreshPartIsPart(QueueOf(w.box.queues, key), ev.now); }
  }

  lemma StepWithinCapacityIff(w: World, ev: Event)
    requires WithinCapacity(w)
    ensures WithinCapacity(Step(w, ev)) <==> BackFits(w, ev)
  {
    var w' := Step(w, ev);
    if ev.GivesBack? {
      assert QueueFits(w', ev.key) <==> BackFits(w, ev);
    }
    forall key | !(ev.GivesBack? && ev.key == key) ensures QueueFits(w', key) {
      assert QueueFits(w, key);
      OtherStepsFit(w, ev, key);
    }
  }

  lemma {:induction false} CapacityHoldsFromIff(w: World, run: seq<Event>)
    requires WithinCapacity(w)
    ensures AlwaysWithinCapacity(w, run) <==> AlwaysBackFits(w, run)
    decreases |run|
  {
    if run != [] {
      StepWithinCapacityIff(w, run[0]);
      if BackFits(w, run[0]) { CapacityHoldsFromIff(Step(w, run[0]), run[1..]); }
    }
  }

  /**
   However flushes interleave, the queues stay within the capacity throughout a run exactly
   when each put-back finds room for what it brings.
   */
  lemma CapacityHoldsIff(run: seq<Event>)
    ensures AlwaysWithinCapacity(START, run) <==> AlwaysBackFits(START, run)
  {
    CapacityHoldsFromIff(START, run);
  }

  function Offers(key: string, m: Message, n: nat): (run: seq<Event>)
    ensures |run| == n
    ensures forall i :: 0 <= i < n ==> run[i] == Accepts(key, m, 0)
  {
    seq(n, _ => Accepts(key, m, 0))
  }

  lemma {:induction false} RunAppends(w: World, a: seq<Event>, b: seq<Event>)
    ensures After(w, a + b) == After(After(w, a), b)
    decreases |a|
  {
    if a == [] {
      assert a + b == b;
    } else {
      assert (a + b)[1..] == a[1..] + b;
      RunAppends(Step(w, a[0]), a[1..], b);
    }
  }

  lemma StepThenRun(w: World, ev: Event, rest: seq<Event>)
    ensures After(w, [ev] + rest) == After(Step(w, ev), rest)
  {
    assert ([ev] + rest)[1..] == rest;
  }

  lemma OneStep(w: World, ev: Event)
    ensures After(w, [ev]) == Step(w, ev)
  {
    assert [ev] + [] == [ev];
    StepThenRun(w, ev, []);
  }

  ghost predicate AllRecent(q: seq<Entry>) {
    forall i :: 0 <= i < |q| ==> q[i].queuedAt == 0
  }

  lemma {:induction false} RecentIsFresh(q: seq<Entry>)
    requires AllRecent(q)
    ensures FreshPart(q, 0) == q && StalePart(q, 0) == []
  {
    if q != [] { RecentIsFresh(q[1..]); }
  }

  /** Offering messages for one name fills its queue one by one up to the capacity. */
  lemma {:induction false} OffersFill(w: World, key: string, m: Message, n: nat)
    requires |QueueOf(w.box.queues, key)| + n <= OUTBOX_CAPACITY && AllRecent(QueueOf(w.box.queues, key))
    ensures var w' := After(w, Offers(key, m, n));
      && |QueueOf(w'.box.queues, key)| == |QueueOf(w.box.queues, key)| + n
      && AllRecent(QueueOf(w'.box.queues, key)) && w'.hands == w.hands
    decreases n
  {
    if n > 0 {
      var e := Accepts(key, m, 0);
      assert Offers(key, m, n) == [e] + Offers(key, m, n - 1);
      StepThenRun(w, e, Offers(key, m, n - 1));
      OffersFill(Step(w, e), key, m, n - 1);
    }
  }

  /** A flush takes a queue, one message arrives for the same name, and the flush gives up. */
  function Race(key: string, m: Message): seq<Event> {
    [TakesUp(0, key, 0)] + ([Accepts(key, m, 0)] + [GivesBack(0, key)])
  }

  lemma RaceAddsOne(w: World, key: string, m: Message)
    requires AllRecent(QueueOf(w.box.queues, key)) && QueueOf(w.box.queues, key) != [] && w.hands == map[]
    ensures |QueueOf(After(w, Race(key, m)).box.queues, key)| == |QueueOf(w.box.queues, key)| + 1
  {
    var (take, accept, give) := (TakesUp(0, key, 0), Accepts(key, m, 0), GivesBack(0, key));
    RecentIsFresh(QueueOf(w.box.queues, key));
    var w1 := Step(w, take);
    var w2 := Step(w1, accept);
    assert HandOf(w2, (0, key)) == QueueOf(w.box.queues, key);
    StepThenRun(w, take, [accept] + [give]);
    StepThenRun(w1, accept, [give]);
    OneStep(w2, give);
  }

  /**
   The capacity belongs to uninterrupted flushes: a full queue, a flush that takes it, one
   new message, and a put-back leave 33 messages in a queue bounded by 32.
   */
  lemma InterleavingOverfills(key: string, m: Message) returns (run: seq<Event>)
    ensures |QueueOf(After(START, run).box.queues, key)| == OUTBOX_CAPACITY + 1
  {
    OffersFill(START, key, m, OUTBOX_CAPACITY);
    var full := After(START, Offers(key, m, OUTBOX_CAPACITY));
    RaceAddsOne(full, key, m);
    RunAppends(START, Offers(key, m, OUTBOX_CAPACITY), Race(key, m));
    run := Offers(key, m, OUTBOX_CAPACITY) + Race(key, m);
  }

  /** The same race on a queue of one message leaves the younger message in front. */
  lemma InterleavingDisorders(key: string, m: Message) returns (run: seq<Event>)
    ensures !OrderedQueue(After(START, run), key)
  {
    var (offer, take, give) := (Accepts(key, m, 0), TakesUp(0, key, 0), GivesBack(0, key));
    var w1 := Step(START, offer);
    var q := QueueOf(w1.box.queues, key);
    assert q == [Entry(m.(id := 1), 0)];
    RecentIsFresh(q);
    var w2 := Step(w1, take);
    var w3 := Step(w2, offer);
    var w4 := Step(w3, give);
    assert HandOf(w3, (0, key)) == q;
    var ids := Ids(QueueOf(w4.box.queues, key));
    assert ids == [2, 1] && ids[0] > ids[1];
    run := [offer] + Race(key, m);
    StepThenRun(START, offer, Race(key, m));
    StepThenRun(w1, take, [offer] + [give]);
    StepThenRun(w2, offer, [give]);
    OneStep(w3, give);
  }

  // ------------------------------------------------------ uninterrupted flushes

  /** A message as it left the outbox, with the time it left. */
  datatype Delivery = Delivery(entry: Entry, at: nat)

  /** A world in which flushes are single steps, with what was sent under each name. */
  datatype Calm = Calm(world: World, log: map<string, seq<Delivery>>)

  const CALM_START: Calm := Calm(START, map[])

  datatype CalmEvent =
    | Offer(key: string, message: Message, now: nat)
    | DirectSend
    | WholeFlush(key: string, now: nat, room: nat)
    | WholePrune(now: nat)

  function LogOf(log: map<string, seq<Delivery>>, key: string): seq<Delivery> {
    if key in log then log[key] else []
  }

  function Deliveries(q: seq<Entry>, at: nat): (r: seq<Delivery>)
    ensures |r| == |q| && forall i :: 0 <= i < |q| ==> r[i] == Delivery(q[i], at)
  {
    seq(|q|, i requires 0 <= i < |q| => Delivery(q[i], at))
  }

  ghost function FlushWorld(w: World, key: string, now: nat, room: nat): World {
    w.(box := Flush(w.box, key, now, room),
       flushed := w.flushed + multiset(Ids(Sendable(w.box, key, now, room))),
       lapsed := w.lapsed + multiset(Ids(StalePart(QueueOf(w.box.queues, key), now))))
  }

  ghost function CalmStep(c: Calm, ev: CalmEvent): Calm {
    match ev
    case Offer(key, m, now) => c.(world := Step(c.world, Accepts(key, m, now)))
    case DirectSend => c.(world := Step(c.world, SendsDirectly))
    case WholeFlush(key, now, room) =>
      Calm(FlushWorld(c.world, key, now, room),
           c.log[key := LogOf(c.log, key) + Deliveries(Sendable(c.world.box, key, now, room), now)])
    case WholePrune(now) => c.(world := Step(c.world, Prunes(now)))
  }

  ghost function CalmAfter(c: Calm, run: seq<CalmEvent>): Calm
    decreases |run|
  {
    if run == [] then c else CalmAfter(CalmStep(c, run[0]), run[1..])
  }

  function HandOvers(task: nat, key: string, n: nat): (run: seq<Event>)
    ensures |run| == n && forall i :: 0 <= i < n ==> run[i] == HandsOver(task, key)
  {
    seq(n, _ => HandsOver(task, key))
  }

  /** The world after handing over the first `n` messages in a hand. */
  ghost function HandedOver(w: World, slot: (nat, string), n: nat): World
    requires slot in w.hands && n <= |w.hands[slot]|
  {
    w.(hands := w.hands[slot := w.hands[slot][n..]],
       flushed := w.flushed + multiset(Ids(w.hands[slot][..n])))
  }

  lemma HandedOverOneMore(w: World, slot: (nat, string), n: nat)
    requires slot in w.hands && 0 < n <= |w.hands[slot]|
    ensures HandedOver(Step(w, HandsOver(slot.0, slot.1)), slot, n - 1) == HandedOver(w, slot, n)
  {
    var hand := w.hands[slot];
    var w' := Step(w, HandsOver(slot.0, slot.1));
    assert hand[1..][n - 1..] == hand[n..];
    assert hand[..n] == [hand[0]] + hand[1..][..n - 1];
    IdsAppend([hand[0]], hand[1..][..n - 1]);
    assert Ids([hand[0]]) == [hand[0].message.id];
    assert w'.hands[slot := hand[n..]] == w.hands[slot := hand[n..]];
  }

  /** Handing over the first `n` messages of a flush, one send at a time. */
  lemma {:induction false} HandOversRun(w: World, task: nat, key: string, n: nat)
    requires (task, key) in w.hands && n <= |w.hands[(task, key)]|
    ensures After(w, HandOvers(task, key, n)) == HandedOver(w, (task, key), n)
    decreases n
  {
    if n > 0 {
      var w' := Step(w, HandsOver(task, key));
      HandOversRun(w', task, key, n - 1);
      HandedOverOneMore(w, (task, key), n);
      StepThenRun(w, HandsOver(task, key), HandOvers(task, key, n - 1));
      assert HandOvers(task, key, n) == [HandsOver(task, key)] + HandOvers(task, key, n - 1);
    } else {
      var hand := w.hands[(task, key)];
      assert hand[..0] == [] && Ids([]) == [] && hand[0..] == hand;
      assert w.hands[(task, key) := hand] == w.hands;
    }
  }

  lemma PhasesCompose(w: World, task: nat, key: string, now: nat, room: nat)
    requires (task, key) !in w.hands
    ensures var w1 := Step(w, TakesUp(task, key, now));
      && (task, key) in w1.hands && w1.hands[(task, key)] == FreshPart(QueueOf(w.box.queues, key), now)
      && Step(HandedOver(w1, (task, key), Min(room, |w1.hands[(task, key)]|)), GivesBack(task, key))
         == FlushWorld(w, key, now, room)
  {
    var w1 := Step(w, TakesUp(task, key, now));
    var live := FreshPart(QueueOf(w.box.queues, key), now);
    var n := Min(room, |live|);
    var w2 := HandedOver(w1, (task, key), n);
    assert HandOf(w2, (task, key)) == live[n..];
    assert w2.hands - {(task, key)} == w.hands;
    assert w2.box == Take(w.box, key, now);
  }

  /** The phases of one flush: take the queue, hand over `n` messages, give the others back. */
  function FlushPhases(task: nat, key: string, now: nat, n: nat): seq<Event> {
    [TakesUp(task, key, now)] + (HandOvers(task, key, n) + [GivesBack(task, key)])
  }

  /** A flush that nothing interrupts is the sequence of its phases, handing over what the connection takes. */
  lemma WholeFlushIsASplitRun(w: World, task: nat, key: string, now: nat, room: nat)
    requires (task, key) !in w.hands
    ensures After(w, FlushPhases(task, key, now, |Sendable(w.box, key, now, room)|)) == FlushWorld(w, key, now, room)
  {
    PhasesCompose(w, task, key, now, room);
    var (take, back) := (TakesUp(task, key, now), GivesBack(task, key));
    var w1 := Step(w, take);
    var sends := HandOvers(task, key, |Sendable(w.box, key, now, room)|);
    HandOversRun(w1, task, key, |sends|);
    OneStep(After(w1, sends), back);
    RunAppends(w1, sends, [back]);
    StepThenRun(w, take, sends + [back]);
  }

  // ---------------------------------------------------------- order and bounds

  ghost function SentIds(c: Calm, key: string): seq<nat> {
    var log := LogOf(c.log, key);
    seq(|log|, i requires 0 <= i < |log| => log[i].entry.message.id)
  }

  /** For one name: what was sent and then what waits, in strictly increasing order of id. */
  ghost predicate InOrder(c: Calm, key: string) {
    IncreasingBelow(SentIds(c, key) + Ids(QueueOf(c.world.box.queues, key)), c.world.box.nextId)
  }

  ghost predicate IncreasingBelow(s: seq<nat>, bound: nat) {
    Increasing(s) && forall i :: 0 <= i < |s| ==> s[i] < bound
  }

  ghost predicate Bounded(c: Calm) {
    forall key :: key in c.world.box.queues ==> 1 <= |c.world.box.queues[key]| <= OUTBOX_CAPACITY
  }

  /** Nothing left after it had waited the time to live. */
  ghost predicate SentInTime(c: Calm) {
    forall key, i :: key in c.log && 0 <= i < |c.log[key]| ==> IsFresh(c.log[key][i].entry, c.log[key][i].at)
  }

  ghost predicate CalmInvariant(c: Calm) {
    && Conserved(c.world) && c.world.hands == map[]
    && Bounded(c) && SentInTime(c) && forall key :: InOrder(c, key)
  }

  lemma {:induction false} FreshPartIsFresh(q: seq<Entry>, now: nat)
    ensures |FreshPart(q, now)| <= |q|
    ensures forall i :: 0 <= i < |FreshPart(q, now)| ==> IsFresh(FreshPart(q, now)[i], now)
  {
    if q != [] { FreshPartIsFresh(q[1..], now); }
  }

  lemma OmitOne(a: seq<nat>, x: nat, b: seq<nat>, bound: nat)
    requires IncreasingBelow(a + [x] + b, bound)
    ensures IncreasingBelow(a + b, bound)
  {
    var (s, t) := (a + [x] + b, a + b);
    assert forall i :: 0 <= i < |t| ==> t[i] == s[if i < |a| then i else i + 1];
  }

  /** Dropping the stale part of a queue keeps what precedes it and the rest in order. */
  lemma {:induction false} FilterKeepsOrder(sent: seq<nat>, q: seq<Entry>, now: nat, bound: nat)
    requires IncreasingBelow(sent + Ids(q), bound)
    ensures IncreasingBelow(sent + Ids(FreshPart(q, now)), bound)
    decreases |q|
  {
    if q == [] {
      assert FreshPart(q, now) == q;
    } else {
      var (e, rest) := (q[0], q[1..]);
      var id := e.message.id;
      assert Ids(q) == [id] + Ids(rest);
      assert sent + Ids(q) == sent + [id] + Ids(rest);
      if IsFresh(e, now) {
        FilterKeepsOrder(sent + [id], rest, now, bound);
        assert FreshPart(q, now) == [e] + FreshPart(rest, now);
        assert Ids([e] + FreshPart(rest, now)) == [id] + Ids(FreshPart(rest, now));
        assert sent + Ids(FreshPart(q, now)) == sent + [id] + Ids(FreshPart(rest, now));
      } else {
        OmitOne(sent, id, Ids(rest), bound);
        FilterKeepsOrder(sent, rest, now, bound);
        assert FreshPart(q, now) == FreshPart(rest, now);
      }
    }
  }

  lemma FlushSplitsOrder(sent: seq<nat>, q: seq<Entry>, now: nat, n: nat, bound: nat)
    requires IncreasingBelow(sent + Ids(q), bound) && n <= |FreshPart(q, now)|
    ensures IncreasingBelow(sent + Ids(FreshPart(q, now)[..n]) + Ids(FreshPart(q, now)[n..]), bound)
  {
    var live := FreshPart(q, now);
    FilterKeepsOrder(sent, q, now, bound);
    assert live == live[..n] + live[n..];
    IdsAppend(live[..n], live[n..]);
    assert sent + Ids(live) == sent + Ids(live[..n]) + Ids(live[n..]);
  }

  /** A name keeps its order when neither its queue nor its log changed. */
  lemma OrderFrame(c: Calm, c': Calm, key: string)
    requires InOrder(c, key) && LogOf(c'.log, key) == LogOf(c.log, key)
    requires QueueOf(c'.world.box.queues, key) == QueueOf(c.world.box.queues, key)
    requires c.world.box.nextId <= c'.world.box.nextId
    ensures InOrder(c', key)
  {
  }

  lemma OfferOrder(c: Calm, key: string, m: Message, now: nat)
    requires InOrder(c, key)
    ensures InOrder(CalmStep(c, Offer(key, m, now)), key)
  {
    var c' := CalmStep(c, Offer(key, m, now));
    var b := c.world.box;
    if HasRoom(b, key) {
      var q, e := QueueOf(b.queues, key), Entry(m.(id := b.nextId), now);
      assert QueueOf(c'.world.box.queues, key) == q + [e];
      assert Ids(q + [e]) == Ids(q) + [b.nextId];
      assert SentIds(c', key) + Ids(q + [e]) == (SentIds(c, key) + Ids(q)) + [b.nextId];
    } else {
      OrderFrame(c, c', key);
    }
  }

  lemma OfferKeeps(c: Calm, key: string, m: Message, now: nat)
    requires CalmInvariant(c)
    ensures CalmInvariant(CalmStep(c, Offer(key, m, now)))
  {
    var c' := CalmStep(c, Offer(key, m, now));
    AcceptConserves(c.world, key, m, now);
    forall k ensures InOrder(c', k) {
      assert InOrder(c, k);
      if k == key { OfferOrder(c, key, m, now); } else { OrderFrame(c, c', k); }
    }
  }

  lemma FlushOrder(c: Calm, key: string, now: nat, room: nat)
    requires InOrder(c, key)
    ensures InOrder(CalmStep(c, WholeFlush(key, now, room)), key)
  {
    var c' := CalmStep(c, WholeFlush(key, now, room));
    var q := QueueOf(c.world.box.queues, key);
    var n := Min(room, |FreshPart(q, now)|);
    FlushSplitsOrder(SentIds(c, key), q, now, n, c.world.box.nextId);
    FlushedQueue(c.world.box, key, now, room);
    assert SentIds(c', key) == SentIds(c, key) + Ids(FreshPart(q, now)[..n]);
  }

  /** What a flush leaves in the table. */
  lemma FlushedQueue(b: Box, key: string, now: nat, room: nat)
    ensures var live := FreshPart(QueueOf(b.queues, key), now);
      QueueOf(Flush(b, key, now, room).queues, key) == live[Min(room, |live|)..]
    ensures forall k :: k != key ==> QueueOf(Flush(b, key, now, room).queues, k) == QueueOf(b.queues, k)
  {
  }

  lemma FlushBounds(c: Calm, key: string, now: nat, room: nat)
    requires Bounded(c) && SentInTime(c)
    ensures Bounded(CalmStep(c, WholeFlush(key, now, room)))
    ensures SentInTime(CalmStep(c, WholeFlush(key, now, room)))
  {
    FreshPartIsFresh(QueueOf(c.world.box.queues, key), now);
  }

  lemma FlushOrders(c: Calm, key: string, now: nat, room: nat)
    requires forall k :: InOrder(c, k)
    ensures forall k :: InOrder(CalmStep(c, WholeFlush(key, now, room)), k)
  {
    var c' := CalmStep(c, WholeFlush(key, now, room));
    FlushedQueue(c.world.box, key, now, room);
    assert c'.world.box.nextId == c.world.box.nextId;
    forall k ensures InOrder(c', k) {
      assert InOrder(c, k);
      if k == key { FlushOrder(c, key, now, room); } else { OrderFrame(c, c', k); }
    }
  }

  lemma FlushKeeps(c: Calm, key: string, now: nat, room: nat)
    requires CalmInvariant(c)
    ensures CalmInvariant(CalmStep(c, WholeFlush(key, now, room)))
  {
    var run := FlushPhases(0, key, now, |Sendable(c.world.box, key, now, room)|);
    WholeFlushIsASplitRun(c.world, 0, key, now, room);
    RunConservesFrom(c.world, run);
    FlushBounds(c, key, now, room);
    FlushOrders(c, key, now, room);
  }

  lemma PrunedQueue(b: Box, key: string, now: nat)
    ensures QueueOf(Prune(b, now).queues, key) == FreshPart(QueueOf(b.queues, key), now)
  {
  }

  lemma PruneKeeps(c: Calm, now: nat)
    requires CalmInvariant(c)
    ensures CalmInvariant(CalmStep(c, WholePrune(now)))
  {
    var c' := CalmStep(c, WholePrune(now));
    StepConserves(c.world, Prunes(now));
    forall k ensures InOrder(c', k) {
      assert InOrder(c, k) && SentIds(c', k) == SentIds(c, k);
      PrunedQueue(c.world.box, k, now);
      FilterKeepsOrder(SentIds(c, k), QueueOf(c.world.box.queues, k), now, c.world.box.nextId);
    }
    forall k | k in c'.world.box.queues ensures 1 <= |c'.world.box.queues[k]| <= OUTBOX_CAPACITY {
      FreshPartIsFresh(c.world.box.queues[k], now);
    }
  }

  lemma {:induction false} CalmRunKeeps(c: Calm, run: seq<CalmEvent>)
    requires CalmInvariant(c)
    ensures CalmInvariant(CalmAfter(c, run))
    decreases |run|
  {
    if run != [] {
      match run[0] {
        case Offer(key, m, now) => OfferKeeps(c, key, m, now);
        case DirectSend =>
          forall k ensures InOrder(CalmStep(c, DirectSend), k) {
            assert InOrder(c, k);
            OrderFrame(c, CalmStep(c, DirectSend), k);
          }
        case WholeFlush(key, now, room) => FlushKeeps(c, key, now, room);
        case WholePrune(now) => PruneKeeps(c, now);
      }
      CalmRunKeeps(CalmStep(c, run[0]), run[1..]);
    }
  }

  /**
   Over every run of uninterrupted operations, whatever the sends do and the clock reads:
   queues hold 1 to 32 messages, the ids sent under one name strictly increase and precede
   those still waiting, nothing was sent after its time, and the counts add up.
   */
  lemma UninterruptedRuns(run: seq<CalmEvent>)
    ensures var c := CalmAfter(CALM_START, run);
      && Bounded(c) && SentInTime(c) && (forall key :: InOrder(c, key))
      && Conserved(c.world)
      && |c.world.accepted| == |c.world.flushed| + c.world.box.expired + |Gather(c.world.box.queues)|
  {
    assert CalmInvariant(CALM_START) by {
      forall k ensures InOrder(CALM_START, k) { }
    }
    CalmRunKeeps(CALM_START, run);
  }

  // -------------------------------------------------------------- the clock

  ghost predicate Chronological(q: seq<Entry>) {
    forall i, j :: 0 <= i < j < |q| ==> q[i].queuedAt <= q[j].queuedAt
  }

  lemma {:induction false} AllFreshStays(q: seq<Entry>, now: nat)
    requires forall i :: 0 <= i < |q| ==> IsFresh(q[i], now)
    ensures StalePart(q, now) == [] && FreshPart(q, now) == q
  {
    if q != [] { AllFreshStays(q[1..], now); }
  }

  lemma TailSlices(q: seq<Entry>, n: nat)
    requires n < |q|
    ensures [q[0]] + q[1..][..n] == q[..n + 1] && q[1..][n..] == q[n + 1..]
  {
  }

  lemma FirstIsOldest(q: seq<Entry>, now: nat)
    requires Chronological(q) && q != [] && IsFresh(q[0], now)
    ensures forall i :: 0 <= i < |q| ==> IsFresh(q[i], now)
  {
    assert forall i :: 0 < i < |q| ==> q[0].queuedAt <= q[i].queuedAt;
  }

  /** In a chronological queue the entries dropped for age are exactly a prefix. */
  lemma {:induction false} StaleIsPrefix(q: seq<Entry>, now: nat)
    requires Chronological(q)
    ensures var n := |StalePart(q, now)|;
      n <= |q| && StalePart(q, now) == q[..n] && FreshPart(q, now) == q[n..]
  {
    if q == [] {
    } else if IsFresh(q[0], now) {
      FirstIsOldest(q, now);
      AllFreshStays(q, now);
    } else {
      StaleIsPrefix(q[1..], now);
      TailSlices(q, |StalePart(q[1..], now)|);
    }
  }

  lemma {:induction false} StalePartIsStale(q: seq<Entry>, now: nat)
    ensures forall i :: 0 <= i < |StalePart(q, now)| ==> !IsFresh(StalePart(q, now)[i], now)
  {
    if q != [] { StalePartIsStale(q[1..], now); }
  }

  function TimeOf(ev: CalmEvent, clock: nat): nat {
    match ev
    case Offer(_, _, now) => now
    case DirectSend => clock
    case WholeFlush(_, now, _) => now
    case WholePrune(now) => now
  }

  ghost predicate Monotone(run: seq<CalmEvent>, clock: nat)
    decreases |run|
  {
    run != [] ==> clock <= TimeOf(run[0], clock) && Monotone(run[1..], TimeOf(run[0], clock))
  }

  function ClockAfter(run: seq<CalmEvent>, clock: nat): nat
    decreases |run|
  {
    if run == [] then clock else ClockAfter(run[1..], TimeOf(run[0], clock))
  }

  ghost predicate Timely(c: Calm, clock: nat) {
    forall key :: TimelyQueue(QueueOf(c.world.box.queues, key), clock)
  }

  ghost predicate TimelyQueue(q: seq<Entry>, clock: nat) {
    Chronological(q) && forall i :: 0 <= i < |q| ==> q[i].queuedAt <= clock
  }

  lemma SuffixIsTimely(q: seq<Entry>, n: nat, clock: nat)
    requires TimelyQueue(q, clock) && n <= |q|
    ensures TimelyQueue(q[n..], clock)
  {
  }

  lemma FilteredIsTimely(q: seq<Entry>, now: nat, n: nat, clock: nat)
    requires TimelyQueue(q, clock) && n <= |FreshPart(q, now)|
    ensures TimelyQueue(FreshPart(q, now)[n..], clock)
  {
    StaleIsPrefix(q, now);
    SuffixIsTimely(q, |StalePart(q, now)|, clock);
    SuffixIsTimely(FreshPart(q, now), n, clock);
  }

  lemma FlushIsTimely(c: Calm, key: string, now: nat, room: nat, clock: nat)
    requires Timely(c, clock)
    ensures Timely(CalmStep(c, WholeFlush(key, now, room)), clock)
  {
    var b := c.world.box;
    var q := QueueOf(b.queues, key);
    FlushedQueue(b, key, now, room);
    FilteredIsTimely(q, now, Min(room, |FreshPart(q, now)|), clock);
    forall k ensures TimelyQueue(QueueOf(Flush(b, key, now, room).queues, k), clock) {
      if k != key { assert TimelyQueue(QueueOf(b.queues, k), clock); }
    }
  }

  lemma PruneIsTimely(c: Calm, now: nat, clock: nat)
    requires Timely(c, clock)
    ensures Timely(CalmStep(c, WholePrune(now)), clock)
  {
    var b := c.world.box;
    forall k ensures TimelyQueue(QueueOf(Prune(b, now).queues, k), clock) {
      PrunedQueue(b, k, now);
      FilteredIsTimely(QueueOf(b.queues, k), now, 0, clock);
    }
  }

  lemma OfferIsTimely(c: Calm, key: string, m: Message, now: nat)
    requires Timely(c, now)
    ensures Timely(CalmStep(c, Offer(key, m, now)), now)
  {
    var b := c.world.box;
    var q, e := QueueOf(b.queues, key), Entry(m.(id := b.nextId), now);
    assert TimelyQueue(q, now);
    assert TimelyQueue(q + [e], now);
    forall k ensures TimelyQueue(QueueOf(Enqueue(b, key, m, now).queues, k), now) {
      assert TimelyQueue(QueueOf(b.queues, k), now);
    }
  }

  lemma StepIsTimely(c: Calm, ev: CalmEvent, clock: nat)
    requires Timely(c, clock) && clock <= TimeOf(ev, clock)
    ensures Timely(CalmStep(c, ev), TimeOf(ev, clock))
  {
    assert Timely(c, TimeOf(ev, clock)) by {
      forall k ensures TimelyQueue(QueueOf(c.world.box.queues, k), TimeOf(ev, clock)) {
        assert TimelyQueue(QueueOf(c.world.box.queues, k), clock);
      }
    }
    match ev
    case Offer(key, m, now) => OfferIsTimely(c, key, m, now);
    case DirectSend =>
    case WholeFlush(key, now, room) => FlushIsTimely(c, key, now, room, now);
    case WholePrune(now) => PruneIsTimely(c, now, now);
  }

  lemma {:induction false} MonotoneRunIsTimely(c: Calm, run: seq<CalmEvent>, clock: nat)
    requires Timely(c, clock) && Monotone(run, clock)
    ensures Timely(CalmAfter(c, run), ClockAfter(run, clock))
    decreases |run|
  {
    if run != [] {
      StepIsTimely(c, run[0], clock);
      MonotoneRunIsTimely(CalmStep(c, run[0]), run[1..], TimeOf(run[0], clock));
    }
  }

  /**
   Under a clock that never runs backwards, at any time after any run the messages a flush
   or a prune would drop from a queue are its oldest ones, and no others.
   */
  lemma ExpiryTakesAPrefix(run: seq<CalmEvent>, key: string, now: nat)
    requires Monotone(run, 0)
    ensures var q := QueueOf(CalmAfter(CALM_START, run).world.box.queues, key);
      var n := |StalePart(q, now)|;
      && n <= |q| && StalePart(q, now) == q[..n] && FreshPart(q, now) == q[n..]
      && (now >= ClockAfter(run, 0) ==>
            forall i :: 0 <= i < |q| ==> (i < n <==> now - q[i].queuedAt >= OUTBOX_TTL))
  {
    MonotoneRunIsTimely(CALM_START, run, 0);
    var q := QueueOf(CalmAfter(CALM_START, run).world.box.queues, key);
    StaleIsPrefix(q, now);
    StalePartIsStale(q, now);
    FreshPartIsFresh(q, now);
    var n := |StalePart(q, now)|;
    forall i | 0 <= i < |q| && now >= ClockAfter(run, 0)
      ensures i < n <==> now - q[i].queuedAt >= OUTBOX_TTL
    {
      assert i < n ==> StalePart(q, now)[i] == q[i];
      assert i >= n ==> FreshPart(q, now)[i - n] == q[i];
    }
  }
}
