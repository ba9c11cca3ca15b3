/**
 The two views of the outbox agree: what the connection model keeps for absent names is the
 queue table without its clock, where ageing is a step of its own.
 */
module OutboxLink {
  import opened Wrappers
  import opened Text
  import opened Keys
  import opened PeerLink
  import Framing
  import Outbox

  predicate SameEntry(kept: Buffered, e: Outbox.Entry) {
    kept.note.id == e.message.id && kept.ciphertext == e.message.ciphertext
  }

  ghost predicate SameQueue(kept: seq<Buffered>, q: seq<Outbox.Entry>) {
    |kept| == |q| && forall i :: 0 <= i < |q| ==> SameEntry(kept[i], q[i])
  }

  function KeptFor(e: End, key: string): seq<Buffered> {
    if key in e.outbox then e.outbox[key] else []
  }

  ghost predicate SameAt(e: End, box: Outbox.Box, key: string) {
    SameQueue(KeptFor(e, key), Outbox.QueueOf(box.queues, key))
  }

  /** One end's outbox and id allocator hold what the table holds. */
  ghost predicate Mirrors(e: End, box: Outbox.Box) {
    e.nextId == box.nextId && forall key :: SameAt(e, box, key)
  }

  /** The frames are those of the entries, in order. */
  ghost predicate Carries(frames: seq<LinkFrame>, q: seq<Outbox.Entry>) {
    |frames| == |q| && forall i :: 0 <= i < |q| ==> frames[i] == Message(q[i].message.id, q[i].message.ciphertext)
  }

  /** Buffering a message is putting it into the table, with the same id and the same refusal. */
  lemma BufferingMirrors(e: End, box: Outbox.Box, key: string, m: Framing.Message, plaintext: seq<byte>, now: nat)
    requires Mirrors(e, box)
    ensures Mirrors(Buffer(e, key, m.ciphertext, plaintext), Outbox.Enqueue(box, key, m, now))
  {
    var (e', box') := (Buffer(e, key, m.ciphertext, plaintext), Outbox.Enqueue(box, key, m, now));
    assert SameAt(e, box, key);
    forall k ensures SameAt(e', box', k) { assert SameAt(e, box, k); }
  }

  // -------------------------------------------------------------------- ageing

  /** Steps of the left end in which messages for one name expire. */
  ghost predicate ExpiryRun(run: seq<Turn>) {
    forall i :: 0 <= i < |run| ==> run[i].left && run[i].event.Expires?
  }

  /** Nothing but what is kept for the left end's absent names has changed. */
  ghost predicate OnlyOutbox(l: Link, l': Link) {
    l'.y == l.y && l'.x == l.x.(outbox := l'.x.outbox)
  }

  function ExpiryOf(key: string, i: nat): Turn {
    Turn(true, Expires(key, i))
  }

  lemma OneExpiry(c: Crypto, l: Link, key: string, i: nat)
    ensures ValidRun(c, l, [ExpiryOf(key, i)])
    ensures After(c, l, [ExpiryOf(key, i)]) == l.(x := Expire(l.x, key, i))
  {
    var t := ExpiryOf(key, i);
    assert [t][1..] == [];
    assert After(c, Next(c, l, t), []) == Next(c, l, t);
  }

  /** What a queue comes to when only the entries from `n` on have been aged. */
  function AgedFrom(q: seq<Outbox.Entry>, n: nat, now: nat): seq<Outbox.Entry>
    requires n <= |q|
  {
    q[..n] + Outbox.FreshPart(q[n..], now)
  }

  lemma AgeOneMore(q: seq<Outbox.Entry>, n: nat, now: nat)
    requires 0 < n <= |q|
    ensures var (a, i) := (AgedFrom(q, n, now), n - 1);
      i < |a| && AgedFrom(q, i, now) == if Outbox.IsFresh(q[i], now) then a else a[..i] + a[i + 1..]
  {
    var i := n - 1;
    assert q[i..][0] == q[i] && q[i..][1..] == q[n..];
    assert q[..n] == q[..i] + [q[i]];
  }

  lemma OneStaleExpires(e: End, key: string, q: seq<Outbox.Entry>, i: nat)
    requires i < |q| && SameQueue(KeptFor(e, key), q)
    ensures SameQueue(KeptFor(Expire(e, key, i), key), q[..i] + q[i + 1..])
    ensures forall k :: k != key ==> KeptFor(Expire(e, key, i), k) == KeptFor(e, k)
  {
  }

  /** A run that does nothing but turn what is kept for one name into `q`. */
  ghost predicate Ages(c: Crypto, l: Link, run: seq<Turn>, key: string, q: seq<Outbox.Entry>) {
    && ExpiryRun(run) && ValidRun(c, l, run) && OnlyOutbox(l, After(c, l, run))
    && SameQueue(KeptFor(After(c, l, run).x, key), q)
    && forall k :: k != key ==> KeptFor(After(c, l, run).x, k) == KeptFor(l.x, k)
  }

  lemma AgesJoin(c: Crypto, l: Link, a: seq<Turn>, b: seq<Turn>, key: string,
                 p: seq<Outbox.Entry>, q: seq<Outbox.Entry>)
    requires Ages(c, l, a, key, p) && Ages(c, After(c, l, a), b, key, q)
    ensures Ages(c, l, a + b, key, q)
  {
    RunsJoin(c, l, a, b);
  }

  lemma OneStaleStep(c: Crypto, l: Link, key: string, q: seq<Outbox.Entry>, i: nat)
    requires i < |q| && SameQueue(KeptFor(l.x, key), q)
    ensures Ages(c, l, [ExpiryOf(key, i)], key, q[..i] + q[i + 1..])
  {
    OneExpiry(c, l, key, i);
    OneStaleExpires(l.x, key, q, i);
  }

  lemma {:induction false} StaleExpireFrom(c: Crypto, l: Link, key: string, q: seq<Outbox.Entry>, n: nat, now: nat)
    returns (run: seq<Turn>)
    requires n <= |q| && SameQueue(KeptFor(l.x, key), AgedFrom(q, n, now))
    ensures Ages(c, l, run, key, Outbox.FreshPart(q, now))
    decreases n
  {
    if n == 0 {
      run := [];
      assert q[0..] == q && q[..0] == [];
    } else {
      var aged := AgedFrom(q, n - 1, now);
      AgeOneMore(q, n, now);
      if Outbox.IsFresh(q[n - 1], now) {
        run := StaleExpireFrom(c, l, key, q, n - 1, now);
      } else {
        var first := [ExpiryOf(key, n - 1)];
        OneStaleStep(c, l, key, AgedFrom(q, n, now), n - 1);
        var rest := StaleExpireFrom(c, After(c, l, first), key, q, n - 1, now);
        AgesJoin(c, l, first, rest, key, aged, Outbox.FreshPart(q, now));
        run := first + rest;
      }
    }
  }

  lemma StaleExpire(c: Crypto, l: Link, box: Outbox.Box, key: string, now: nat) returns (run: seq<Turn>)
    requires SameAt(l.x, box, key)
    ensures Ages(c, l, run, key, Outbox.FreshPart(Outbox.QueueOf(box.queues, key), now))
  {
    var q := Outbox.QueueOf(box.queues, key);
    assert q[..|q|] == q && q[|q|..] == [] && q + [] == q;
    run := StaleExpireFrom(c, l, key, q, |q|, now);
  }

  // ------------------------------------------------------------------- flushing

  lemma FlushSplits(e: End, key: string, live: seq<Outbox.Entry>, room: nat)
    requires SameQueue(KeptFor(e, key), live)
    ensures var (n, e') := (Outbox.Min(room, |live|), Flush(e, key, room));
      && SameQueue(KeptFor(e', key), live[n..])
      && |e'.out| == |e.out| + n && e'.out[..|e.out|] == e.out && Carries(e'.out[|e.out|..], live[..n])
    ensures forall k :: k != key ==> KeptFor(Flush(e, key, room), k) == KeptFor(e, k)
    ensures Flush(e, key, room).nextId == e.nextId
  {
  }

  /**
   A flush of the table is the expiry of the stale messages followed by the connection's
   flush: the same messages go out in the same order, and the same ones are kept.
   */
  lemma FlushIsExpiryThenFlush(c: Crypto, l: Link, box: Outbox.Box, key: string, now: nat, room: nat)
    returns (run: seq<Turn>)
    requires Mirrors(l.x, box)
    ensures ExpiryRun(run) && ValidRun(c, l, run) && OnlyOutbox(l, After(c, l, run))
    ensures var flushed := Flush(After(c, l, run).x, key, room);
      && Mirrors(flushed, Outbox.Flush(box, key, now, room))
      && |flushed.out| >= |l.x.out| && flushed.out[..|l.x.out|] == l.x.out
      && Carries(flushed.out[|l.x.out|..], Outbox.Sendable(box, key, now, room))
  {
    var live := Outbox.FreshPart(Outbox.QueueOf(box.queues, key), now);
    assert SameAt(l.x, box, key);
    run := StaleExpire(c, l, box, key, now);
    var aged := After(c, l, run).x;
    FlushSplits(aged, key, live, room);
    FlushedTable(box, key, now, room);
    var (e', box') := (Flush(aged, key, room), Outbox.Flush(box, key, now, room));
    forall k ensures SameAt(e', box', k) {
      if k != key { assert SameAt(l.x, box, k); }
    }
  }

  lemma FlushedTable(box: Outbox.Box, key: string, now: nat, room: nat)
    ensures var live := Outbox.FreshPart(Outbox.QueueOf(box.queues, key), now);
      var box' := Outbox.Flush(box, key, now, room);
      && Outbox.QueueOf(box'.queues, key) == live[Outbox.Min(room, |live|)..] && box'.nextId == box.nextId
      && forall k :: k != key ==> Outbox.QueueOf(box'.queues, k) == Outbox.QueueOf(box.queues, k)
  {
  }

  // -------------------------------------------------------------------- pruning

  lemma {:induction false} StaleExpireIn(c: Crypto, l: Link, box: Outbox.Box, keys: set<string>, now: nat)
    returns (run: seq<Turn>)
    requires forall k :: SameAt(l.x, box, k)
    ensures ExpiryRun(run) && ValidRun(c, l, run) && OnlyOutbox(l, After(c, l, run))
    ensures forall k :: SameQueue(KeptFor(After(c, l, run).x, k),
        if k in keys then Outbox.FreshPart(Outbox.QueueOf(box.queues, k), now) else Outbox.QueueOf(box.queues, k))
    decreases |keys|
  {
    if keys == {} {
      run := [];
      forall k ensures SameQueue(KeptFor(l.x, k), Outbox.QueueOf(box.queues, k)) { assert SameAt(l.x, box, k); }
    } else {
      var key :| key in keys;
      var before := StaleExpireIn(c, l, box, keys - {key}, now);
      var mid := After(c, l, before);
      assert SameAt(mid.x, box, key);
      var last := StaleExpire(c, mid, box, key, now);
      RunsJoin(c, l, before, last);
      run := before + last;
    }
  }

  /** A prune of the table is the expiry of every stale message. */
  lemma PruneIsExpiry(c: Crypto, l: Link, box: Outbox.Box, now: nat) returns (run: seq<Turn>)
    requires Mirrors(l.x, box)
    ensures ExpiryRun(run) && ValidRun(c, l, run) && OnlyOutbox(l, After(c, l, run))
    ensures Mirrors(After(c, l, run).x, Outbox.Prune(box, now))
  {
    run := StaleExpireIn(c, l, box, box.queues.Keys, now);
    var (e', box') := (After(c, l, run).x, Outbox.Prune(box, now));
    forall k ensures SameAt(e', box', k) {
      assert Outbox.QueueOf(box'.queues, k) == Outbox.FreshPart(Outbox.QueueOf(box.queues, k), now);
    }
  }
}
