/** What an end queues of its own accord: receipts for what it read, keepalives, and messages to everybody. */
module Receipts {
  import opened Wrappers
  import opened Text
  import opened Keys
  import opened PeerLink

  function AckIds(frames: seq<LinkFrame>): seq<nat>
    decreases |frames|
  {
    if frames == [] then [] else (if frames[0].Ack? then [frames[0].acked] else []) + AckIds(frames[1..])
  }

  function NoteIds(notes: seq<Note>): seq<nat> {
    seq(|notes|, i requires 0 <= i < |notes| => notes[i].id)
  }

  lemma {:induction false} AckIdsAppend(a: seq<LinkFrame>, b: seq<LinkFrame>)
    ensures AckIds(a + b) == AckIds(a) + AckIds(b)
    decreases |a|
  {
    if a == [] {
      assert a + b == b;
    } else {
      assert (a + b)[0] == a[0] && (a + b)[1..] == a[1..] + b;
      AckIdsAppend(a[1..], b);
      Associates(if a[0].Ack? then [a[0].acked] else [], AckIds(a[1..]), AckIds(b));
    }
  }

  lemma {:induction false} NoAckIds(frames: seq<LinkFrame>)
    requires forall i :: 0 <= i < |frames| ==> !frames[i].Ack?
    ensures AckIds(frames) == []
    decreases |frames|
  {
    if frames != [] { NoAckIds(frames[1..]); }
  }

  /** The receipts that came and those under way are for exactly the messages read, in order. */
  ghost predicate Confirms(reader: End, sender: End) {
    sender.confirmed + AckIds(reader.out) == NoteIds(reader.received)
  }

  /** Whenever something is read, the queue takes the receipt. */
  ghost predicate RoomyRun(run: seq<Turn>) {
    forall i :: 0 <= i < |run| && run[i].event.Delivers? ==> run[i].event.outRoom > 0
  }

  /** The end reads `notes` and queues `more`, which holds the receipts for them. */
  ghost predicate Answers(x: End, x': End, more: seq<LinkFrame>, notes: seq<Note>) {
    x'.out == x.out + more && x'.received == x.received + notes && AckIds(more) == NoteIds(notes)
  }

  lemma AnswersConfirm(x: End, x': End, y: End, more: seq<LinkFrame>, notes: seq<Note>)
    requires Confirms(x, y) && Answers(x, x', more, notes)
    ensures Confirms(x', y)
  {
    AckIdsAppend(x.out, more);
    assert NoteIds(x.received + notes) == NoteIds(x.received) + NoteIds(notes);
    Associates(y.confirmed, AckIds(x.out), AckIds(more));
  }

  /** A step that reads no message queues no receipt. */
  lemma NothingToAnswer(x: End, x': End, more: seq<LinkFrame>)
    requires x'.out == x.out + more && x'.received == x.received
    requires forall i :: 0 <= i < |more| ==> !more[i].Ack?
    ensures Answers(x, x', more, [])
  {
    NoAckIds(more);
    assert x.received + [] == x.received;
  }

  lemma MessageIsAnswered(c: Crypto, x: End, f: LinkFrame, room: nat) returns (more: seq<LinkFrame>, notes: seq<Note>)
    requires f.Message? && room > 0
    ensures Answers(x, Dispatch(c, x, f, room), more, notes) && Dispatch(c, x, f, room).confirmed == x.confirmed
  {
    var plaintext := c.TryKeys(CandidateKeys(c, x.own, x.ephemeral, x.peer), f.ciphertext);
    if plaintext.Some? {
      more, notes := [Ack(f.id)], [Note(f.id, plaintext.value)];
      assert [Ack(f.id)][1..] == [] && NoteIds(notes) == [f.id] && AckIds(more) == [f.id] + [];
    } else {
      more, notes := [], [];
      assert x.out + [] == x.out && x.received + [] == x.received;
    }
  }

  /** Any other step of an end: it appends frames that are no receipts. */
  lemma OtherStepAppends(c: Crypto, l: Link, ev: Event) returns (more: seq<LinkFrame>)
    requires Enabled(c, l, ev) && !(ev.Delivers? && l.y.out[0].Message?)
    ensures var (x, x') := (l.x, Apply(c, l, ev).x);
      && x'.out == x.out + more && x'.received == x.received && forall i :: 0 <= i < |more| ==> !more[i].Ack?
    ensures Apply(c, l, ev).x.confirmed
         == l.x.confirmed + if ev.Delivers? && l.y.out[0].Ack? then [l.y.out[0].acked] else []
  {
    var (x, x') := (l.x, Apply(c, l, ev).x);
    assert x.out + [] == x.out && x.confirmed + [] == x.confirmed;
    more := x'.out[|x.out|..];
  }

  lemma StepAnswers(c: Crypto, l: Link, ev: Event) returns (more: seq<LinkFrame>, notes: seq<Note>)
    requires Enabled(c, l, ev) && (ev.Delivers? ==> ev.outRoom > 0)
    ensures Answers(l.x, Apply(c, l, ev).x, more, notes)
    ensures Apply(c, l, ev).x.confirmed
         == l.x.confirmed + if ev.Delivers? && l.y.out[0].Ack? then [l.y.out[0].acked] else []
  {
    if ev.Delivers? && l.y.out[0].Message? {
      more, notes := MessageIsAnswered(c, l.x, l.y.out[0], ev.outRoom);
      assert l.x.confirmed + [] == l.x.confirmed;
    } else {
      more := OtherStepAppends(c, l, ev);
      notes := [];
      NothingToAnswer(l.x, Apply(c, l, ev).x, more);
    }
  }

  /** A receipt that is read moves from the queue to the confirmed ones. */
  lemma ReceiptArrives(y: End, x: End, confirmed: seq<nat>)
    requires Confirms(y, x) && y.out != []
    requires confirmed == x.confirmed + if y.out[0].Ack? then [y.out[0].acked] else []
    ensures confirmed + AckIds(y.out[1..]) == NoteIds(y.received)
  {
    var head := if y.out[0].Ack? then [y.out[0].acked] else [];
    assert AckIds(y.out) == head + AckIds(y.out[1..]);
    Associates(x.confirmed, head, AckIds(y.out[1..]));
  }

  lemma StepConfirms(c: Crypto, l: Link, ev: Event)
    requires Enabled(c, l, ev) && (ev.Delivers? ==> ev.outRoom > 0)
    requires Confirms(l.x, l.y) && Confirms(l.y, l.x)
    ensures Confirms(Apply(c, l, ev).x, Apply(c, l, ev).y) && Confirms(Apply(c, l, ev).y, Apply(c, l, ev).x)
  {
    var l' := Apply(c, l, ev);
    var more, notes := StepAnswers(c, l, ev);
    AnswersConfirm(l.x, l'.x, l.y, more, notes);
    if ev.Delivers? {
      ReceiptArrives(l.y, l.x, l'.x.confirmed);
    } else {
      assert l.x.confirmed + [] == l.x.confirmed;
    }
  }

  lemma {:induction false} RunConfirms(c: Crypto, l: Link, run: seq<Turn>)
    requires ValidRun(c, l, run) && RoomyRun(run) && Confirms(l.x, l.y) && Confirms(l.y, l.x)
    ensures Confirms(After(c, l, run).x, After(c, l, run).y) && Confirms(After(c, l, run).y, After(c, l, run).x)
    decreases |run|
  {
    if run != [] {
      StepConfirms(c, TurnOf(l, run[0]), run[0].event);
      assert forall i :: 0 <= i < |run[1..]| ==> run[1..][i] == run[i + 1];
      RunConfirms(c, Next(c, l, run[0]), run[1..]);
    }
  }

  /**
   In every run in which the queues take the receipts: what a sender has seen confirmed and the
   receipts still under way are, in order and once each, the ids of the messages its peer read.
   */
  lemma EveryReadingIsConfirmed(c: Crypto, l: Link, run: seq<Turn>)
    requires Initial(c, l) && ValidRun(c, l, run) && RoomyRun(run)
    ensures var l' := After(c, l, run); Confirms(l'.x, l'.y) && Confirms(l'.y, l'.x)
  {
    RunConfirms(c, l, run);
  }

  // ------------------------------------------------- keepalives and broadcasts

  /** A keepalive is queued exactly for a peer that has greeted, if the queue takes it. */
  lemma ProbeIsQueuedIff(e: End, room: bool)
    ensures var e' := Probe(e, room);
      && (e'.out == e.out + [Keepalive] <==> e.registered && e.peer.nickname.Some? && room)
      && e' == e.(out := e'.out) && (e'.out == e.out + [Keepalive] || e'.out == e.out)
  {
  }

  /** A message to everybody goes to every connection whose queue takes it, sealed for the session. */
  lemma BroadcastIsQueuedIff(c: Crypto, e: End, plaintext: seq<byte>, nonce: seq<byte>, room: bool)
    ensures var e' := Broadcast(c, e, plaintext, nonce, room);
      && e' == e.(nextId := e.nextId + 1, out := e'.out, sent := e'.sent)
      && (if e.registered && room then
            && e'.out == e.out + [Message(e.nextId, c.EncryptWith(c.session, nonce, plaintext))]
            && e'.sent == e.sent + [Note(e.nextId, plaintext)]
          else e'.out == e.out && e'.sent == e.sent)
  {
  }

  /** An end probes only a peer whose name it knows. */
  ghost predicate ProbesTheNamed(x: End, y: End) {
    && (!x.registered ==> x.peer.nickname == None)
    && (forall i :: 0 <= i < |x.out| && x.out[i].Keepalive? ==> x.peer.nickname.Some?)
    && (y.peer.keepaliveSeen ==> x.peer.nickname.Some?)
  }

  lemma ProberStaysKind(c: Crypto, l: Link, ev: Event)
    requires Enabled(c, l, ev) && ProbesTheNamed(l.x, l.y)
    ensures ProbesTheNamed(Apply(c, l, ev).x, Apply(c, l, ev).y)
  {
    var (x, l') := (l.x, Apply(c, l, ev));
    forall i | 0 <= i < |l'.x.out| && l'.x.out[i].Keepalive? ensures l'.x.peer.nickname.Some? {
      if i < |x.out| { assert x.out[i].Keepalive?; }
    }
  }

  lemma ProbedStaysKind(c: Crypto, l: Link, ev: Event)
    requires Enabled(c, l, ev) && ProbesTheNamed(l.y, l.x)
    ensures ProbesTheNamed(Apply(c, l, ev).y, Apply(c, l, ev).x)
  {
    var (y, l') := (l.y, Apply(c, l, ev));
    if ev.Delivers? {
      forall i | 0 <= i < |l'.y.out| && l'.y.out[i].Keepalive? ensures y.peer.nickname.Some? {
        assert y.out[i + 1].Keepalive?;
      }
    }
  }

  /** In every run a peer is probed, and sees itself probed, only once it has been greeted by name. */
  lemma {:induction false} OnlyTheNamedAreProbed(c: Crypto, l: Link, run: seq<Turn>)
    requires ValidRun(c, l, run) && ProbesTheNamed(l.x, l.y) && ProbesTheNamed(l.y, l.x)
    ensures ProbesTheNamed(After(c, l, run).x, After(c, l, run).y)
    ensures ProbesTheNamed(After(c, l, run).y, After(c, l, run).x)
    decreases |run|
  {
    if run != [] {
      var (m, ev) := (TurnOf(l, run[0]), run[0].event);
      ProberStaysKind(c, m, ev);
      ProbedStaysKind(c, m, ev);
      OnlyTheNamedAreProbed(c, Next(c, l, run[0]), run[1..]);
    }
  }
}
