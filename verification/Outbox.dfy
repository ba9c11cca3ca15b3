/**
 The offline outbox: bounded per-nickname queues of messages for peers that are away,
 flushed when the peer announces its name and pruned when a message gets too old.
 */
module Outbox {
  import opened Wrappers
  import opened Text
  import opened Framing

  const OUTBOX_CAPACITY: nat := 32

  /** Five minutes, in milliseconds. */
  const OUTBOX_TTL: nat := 300_000

  datatype Entry = Entry(message: Message, queuedAt: nat)

  type Queues = map<string, seq<Entry>>

  /** The state behind the outbox lock, with the id allocator and the expiry counter. */
  datatype Box = Box(queues: Queues, nextId: nat, expired: nat)

  const EMPTY: Box := Box(map[], 1, 0)

  function QueueOf(queues: Queues, key: string): seq<Entry> {
    if key in queues then queues[key] else []
  }

  // --------------------------------------------------------------- expiration

  /** Whether an entry is still worth delivering; a clock behind its stamp counts as no wait. */
  predicate IsFresh(e: Entry, now: nat) {
    (if now >= e.queuedAt then now - e.queuedAt else 0) < OUTBOX_TTL
  }

  function FreshPart(q: seq<Entry>, now: nat): seq<Entry> {
    if q == [] then [] else (if IsFresh(q[0], now) then [q[0]] else []) + FreshPart(q[1..], now)
  }

  function StalePart(q: seq<Entry>, now: nat): seq<Entry> {
    if q == [] then [] else (if IsFresh(q[0], now) then [] else [q[0]]) + StalePart(q[1..], now)
  }

  function Ids(q: seq<Entry>): (r: seq<nat>)
    ensures |r| == |q|
    ensures forall i :: 0 <= i < |q| ==> r[i] == q[i].message.id
  {
    seq(|q|, i requires 0 <= i < |q| => q[i].message.id)
  }

  /** The ids waiting in every queue of a table, counted with repetition. */
  ghost function Gather<K>(m: map<K, seq<Entry>>): multiset<nat>
    decreases |m|
  {
    if m == map[] then multiset{}
    else var k :| k in m; multiset(Ids(m[k])) + Gather(m - {k})
  }

  lemma {:induction false} GatherTakesOut<K>(m: map<K, seq<Entry>>, k: K)
    requires k in m
    ensures Gather(m) == multiset(Ids(m[k])) + Gather(m - {k})
    decreases |m|
  {
    var j :| j in m && Gather(m) == multiset(Ids(m[j])) + Gather(m - {j});
    if j != k {
      GatherTakesOut(m - {j}, k);
      GatherTakesOut(m - {k}, j);
      assert m - {j} - {k} == m - {k} - {j};
    }
  }

  lemma GatherPutsIn<K>(m: map<K, seq<Entry>>, k: K, q: seq<Entry>)
    ensures Gather(m[k := q]) == multiset(Ids(q)) + Gather(m - {k})
    ensures k in m ==> Gather(m) == multiset(Ids(m[k])) + Gather(m - {k})
    ensures k !in m ==> m - {k} == m
  {
    GatherTakesOut(m[k := q], k);
    assert m[k := q] - {k} == m - {k};
    if k in m { GatherTakesOut(m, k); }
  }

  function FreshQueues(queues: Queues, now: nat): Queues {
    map k | k in queues && FreshPart(queues[k], now) != [] :: FreshPart(queues[k], now)
  }

  function StaleQueues(queues: Queues, now: nat): Queues {
    map k | k in queues :: StalePart(queues[k], now)
  }

  lemma IdsAppend(a: seq<Entry>, b: seq<Entry>)
    ensures Ids(a + b) == Ids(a) + Ids(b)
    ensures multiset(Ids(a + b)) == multiset(Ids(a)) + multiset(Ids(b))
  {
    assert Ids(a + b) == Ids(a) + Ids(b);
  }

  /** Splitting a queue by age neither loses nor duplicates an id. */
  lemma {:induction false} PartitionConserves(q: seq<Entry>, now: nat)
    ensures multiset(Ids(q)) == multiset(Ids(FreshPart(q, now))) + multiset(Ids(StalePart(q, now)))
  {
    if q != [] {
      PartitionConserves(q[1..], now);
      assert q == [q[0]] + q[1..];
      IdsAppend([q[0]], q[1..]);
      IdsAppend(if IsFresh(q[0], now) then [q[0]] else [], FreshPart(q[1..], now));
      IdsAppend(if IsFresh(q[0], now) then [] else [q[0]], StalePart(q[1..], now));
      assert FreshPart(q, now) == (if IsFresh(q[0], now) then [q[0]] else []) + FreshPart(q[1..], now);
      assert StalePart(q, now) == (if IsFresh(q[0], now) then [] else [q[0]]) + StalePart(q[1..], now);
    }
  }

  lemma {:induction false} PruneConserves(queues: Queues, now: nat)
    ensures Gather(queues) == Gather(FreshQueues(queues, now)) + Gather(StaleQueues(queues, now))
    decreases |queues|
  {
    if queues == map[] {
      assert FreshQueues(queues, now) == map[] && StaleQueues(queues, now) == map[];
    } else {
      var k :| k in queues;
      PruneConserves(queues - {k}, now);
      PruneConservesWith(queues, k, now);
    }
  }

  lemma QueuesWithout(queues: Queues, k: string, now: nat)
    ensures StaleQueues(queues, now) - {k} == StaleQueues(queues - {k}, now)
    ensures FreshQueues(queues, now) - {k} == FreshQueues(queues - {k}, now)
  {
  }

  /** Taking one queue out of a table, where a missing queue counts as an empty one. */
  lemma GatherWithout(m: Queues, k: string, q: seq<Entry>)
    requires q == QueueOf(m, k)
    ensures Gather(m) == multiset(Ids(q)) + Gather(m - {k})
  {
    if k in m { GatherTakesOut(m, k); } else { assert m - {k} == m; }
  }

  lemma PruneConservesWith(queues: Queues, k: string, now: nat)
    requires k in queues
    requires Gather(queues - {k})
          == Gather(FreshQueues(queues - {k}, now)) + Gather(StaleQueues(queues - {k}, now))
    ensures Gather(queues) == Gather(FreshQueues(queues, now)) + Gather(StaleQueues(queues, now))
  {
    QueuesWithout(queues, k, now);
    PartitionConserves(queues[k], now);
    GatherWithout(queues, k, queues[k]);
    GatherWithout(FreshQueues(queues, now), k, FreshPart(queues[k], now));
    GatherWithout(StaleQueues(queues, now), k, StalePart(queues[k], now));
  }

  // -------------------------------------------------- operations on the table

  predicate HasRoom(b: Box, key: string) {
    |QueueOf(b.queues, key)| < OUTBOX_CAPACITY
  }

  /** An id is spent whether or not the queue has room for the message. */
  function Enqueue(b: Box, key: string, m: Message, now: nat): Box {
    if HasRoom(b, key)
    then Box(b.queues[key := QueueOf(b.queues, key) + [Entry(m.(id := b.nextId), now)]], b.nextId + 1, b.expired)
    else b.(nextId := b.nextId + 1)
  }

  /** First phase of a flush: the whole queue leaves the table and its stale part is dropped. */
  function Take(b: Box, key: string, now: nat): Box {
    b.(queues := b.queues - {key}, expired := b.expired + |StalePart(QueueOf(b.queues, key), now)|)
  }

  /** Last phase of a flush: what could not be sent is appended to the queue of that time. */
  function PutBack(b: Box, key: string, rest: seq<Entry>): Box {
    if rest == [] then b else b.(queues := b.queues[key := QueueOf(b.queues, key) + rest])
  }

  function Min(a: nat, b: nat): nat {
    if a <= b then a else b
  }

  /** What a flush sends when the connection takes `room` more frames. */
  function Sendable(b: Box, key: string, now: nat, room: nat): seq<Entry> {
    var live := FreshPart(QueueOf(b.queues, key), now);
    live[..Min(room, |live|)]
  }

  function Frames(q: seq<Entry>): seq<Frame> {
    seq(|q|, i requires 0 <= i < |q| => EncodeMessage(q[i].message))
  }

  /** A flush that nothing interrupts. */
  function Flush(b: Box, key: string, now: nat, room: nat): Box {
    var live := FreshPart(QueueOf(b.queues, key), now);
    PutBack(Take(b, key, now), key, live[Min(room, |live|)..])
  }

  ghost function StaleTotal(queues: Queues, now: nat): nat {
    |Gather(StaleQueues(queues, now))|
  }

  ghost function Prune(b: Box, now: nat): Box {
    b.(queues := FreshQueues(b.queues, now), expired := b.expired + StaleTotal(b.queues, now))
  }

  lemma {:induction false} PartitionLengths(q: seq<Entry>, now: nat)
    ensures |q| == |FreshPart(q, now)| + |StalePart(q, now)|
  {
    if q != [] { PartitionLengths(q[1..], now); }
  }

  /** Emptying one queue takes exactly its stale entries out of the stale total. */
  lemma StaleTotalWithout(queues: Queues, key: string, now: nat)
    requires key in queues
    ensures StaleTotal(queues, now) == |StalePart(queues[key], now)| + StaleTotal(queues - {key}, now)
  {
    QueuesWithout(queues, key, now);
    GatherTakesOut(StaleQueues(queues, now), key);
    var stale := Ids(StalePart(queues[key], now));
    assert |multiset(stale)| == |stale|;
  }

  lemma FreshQueuesWith(queues: Queues, kept: Queues, key: string, now: nat)
    requires key in queues && kept == queues - {key}
    ensures FreshQueues(queues, now)
         == if FreshPart(queues[key], now) == [] then FreshQueues(kept, now)
            else FreshQueues(kept, now)[key := FreshPart(queues[key], now)]
  {
  }

  /** The send loop of a flush: frames go out until the connection refuses one. */
  method SendWhileRoom(entries: seq<Entry>, room: nat) returns (sent: seq<Frame>, rest: seq<Entry>)
    ensures sent == Frames(entries[..Min(room, |entries|)]) && rest == entries[Min(room, |entries|)..]
  {
    sent, rest := [], entries;
    while rest != [] && |sent| < room
      invariant |sent| <= |entries| && |sent| <= room && rest == entries[|sent|..]
      invariant sent == Frames(entries[..|sent|])
      decreases |rest|
    {
      assert entries[..|sent| + 1] == entries[..|sent|] + [rest[0]];
      sent := sent + [EncodeMessage(rest[0].message)];
      rest := rest[1..];
    }
  }

  /** The progress of a prune: what is settled and what is still to be looked at. */
  ghost predicate Pruning(queues: Queues, pending: Queues, done: Queues, kept: Queues, dropped: nat, now: nat) {
    && pending.Keys <= queues.Keys && pending == queues - done.Keys && done == queues - pending.Keys
    && kept == FreshQueues(done, now)
    && dropped + StaleTotal(pending, now) == StaleTotal(queues, now)
  }

  lemma PruningAdvances(queues: Queues, pending: Queues, done: Queues, kept: Queues, dropped: nat, now: nat,
                        key: string)
    requires Pruning(queues, pending, done, kept, dropped, now) && key in pending
    ensures |FreshPart(queues[key], now)| <= |queues[key]|
    ensures var live := FreshPart(queues[key], now);
      Pruning(queues, pending - {key}, done[key := queues[key]],
              if live == [] then kept else kept[key := live], dropped + |queues[key]| - |live|, now)
  {
    StaleTotalWithout(pending, key, now);
    PartitionLengths(queues[key], now);
    FreshQueuesWith(done[key := queues[key]], done, key, now);
  }

  /** The loop of a prune: every queue keeps its live entries and empty queues go. */
  method RetainFresh(queues: Queues, now: nat) returns (kept: Queues, dropped: nat)
    ensures kept == FreshQueues(queues, now) && dropped == StaleTotal(queues, now)
  {
    var pending := queues;
    ghost var done: Queues := map[];
    kept, dropped := map[], 0;
    while pending != map[]
      invariant Pruning(queues, pending, done, kept, dropped, now)
      decreases |pending|
    {
      var key :| key in pending;
      var live := FreshPart(queues[key], now);
      PruningAdvances(queues, pending, done, kept, dropped, now, key);
      dropped := dropped + |queues[key]| - |live|;
      kept := if live == [] then kept else kept[key := live];
      pending, done := pending - {key}, done[key := queues[key]];
    }
    assert done == queues && StaleQueues(pending, now) == map[];
  }

  /** The outbox as the transport updates it. */
  class OfflineQueue {
    var queues: Queues
    var nextId: nat
    var expired: nat

    ghost function Table(): Box
      reads this
    {
      Box(queues, nextId, expired)
    }

    constructor ()
      ensures Table() == EMPTY
    {
      queues, nextId, expired := map[], 1, 0;
    }

    /** Buffers a message; `position` is its place in the queue, `None` when it was dropped. */
    method EnqueueMessage(nickname: string, m: Message, now: nat) returns (position: Option<nat>)
      modifies this
      ensures Table() == (if Trim(nickname) == "" then old(Table())
                          else Enqueue(old(Table()), ToAsciiLower(Trim(nickname)), m, now))
      ensures position.Some? <==> Trim(nickname) != "" && HasRoom(old(Table()), ToAsciiLower(Trim(nickname)))
      ensures position.Some? ==>
        position.value == |QueueOf(queues, ToAsciiLower(Trim(nickname)))|
    {
      var key := ToAsciiLower(Trim(nickname));
      if key == "" {
        return None;
      }
      var id := nextId;
      nextId := nextId + 1;
      var queue := if key in queues then queues[key] else [];
      if |queue| >= OUTBOX_CAPACITY {
        return None;
      }
      queues := queues[key := queue + [Entry(m.(id := id), now)]];
      position := Some(|queue| + 1);
    }

    /** Sends what waits for a nickname until the connection refuses a frame. */
    method FlushOutbox(nickname: string, now: nat, room: nat) returns (sent: seq<Frame>)
      modifies this
      ensures Table() == Flush(old(Table()), ToAsciiLower(nickname), now, room)
      ensures sent == Frames(Sendable(old(Table()), ToAsciiLower(nickname), now, room))
    {
      var key := ToAsciiLower(nickname);
      var entries := TakeQueue(key, now);
      sent, entries := SendWhileRoom(entries, room);
      if entries != [] {
        queues := queues[key := QueueOf(queues, key) + entries];
      }
    }

    /** Removes a nickname's queue, counts its stale entries and returns the others. */
    method TakeQueue(key: string, now: nat) returns (entries: seq<Entry>)
      modifies this
      ensures Table() == Take(old(Table()), key, now)
      ensures entries == FreshPart(QueueOf(old(queues), key), now)
    {
      var queue := QueueOf(queues, key);
      queues := queues - {key};
      expired := expired + |StalePart(queue, now)|;
      entries := FreshPart(queue, now);
    }

    /** Drops every message that waited too long, and every queue that this empties. */
    method PruneOutbox(now: nat)
      modifies this
      ensures Table() == Prune(old(Table()), now)
    {
      var kept, dropped := RetainFresh(queues, now);
      queues := kept;
      expired := expired + dropped;
    }
  }
}
