/**
 The two deadlines of a connection's read loop, and the keepalive cadence that keeps the
 second one from ever firing on a healthy peer. Times are in milliseconds.
 */
module ReadLoop {
  import opened Wrappers

  const IDLE_TIMEOUT: nat := 60_000
  const MIN_KEEPALIVE_INTERVAL: nat := 1_000
  const DEFAULT_KEEPALIVE_INTERVAL: nat := 20_000

  /** What the loop can read next. A hello is accepted when its nickname can be displayed. */
  datatype Input = HelloFrame(accepted: bool) | KeepaliveFrame | OtherFrame | EndOfStream | BadStream

  datatype Arrival = Arrival(at: nat, input: Input)

  datatype Reason = NoGreeting | NoTraffic | Closed | ReadError

  /** How the loop ends after `frames` frames; `Waiting` means it never ends on this trace. */
  datatype Outcome = Dropped(frames: nat, at: nat, reason: Reason) | Waiting

  ghost predicate InOrder(trace: seq<Arrival>, start: nat) {
    && (forall i :: 0 <= i < |trace| ==> start <= trace[i].at)
    && (forall i, j :: 0 <= i < j < |trace| ==> trace[i].at <= trace[j].at)
  }

  predicate IsFrame(input: Input) {
    input.HelloFrame? || input.KeepaliveFrame? || input.OtherFrame?
  }

  predicate Greeted(trace: seq<Arrival>) {
    exists i :: 0 <= i < |trace| && trace[i].input == HelloFrame(true)
  }

  predicate Probed(trace: seq<Arrival>) {
    exists i :: 0 <= i < |trace| && trace[i].input == KeepaliveFrame
  }

  /** The deadline for the next frame, from the frames already read. */
  function Deadline(read: seq<Arrival>, start: nat, handshake: nat): Option<nat> {
    if !Greeted(read) then Some(start + handshake)
    else if Probed(read) then Some(read[|read| - 1].at + IDLE_TIMEOUT)
    else None
  }

  /** Frame `i` arrives, is a frame, and is due: a frame due by the deadline wins. */
  ghost predicate Survives(trace: seq<Arrival>, start: nat, handshake: nat, i: nat)
    requires i < |trace|
  {
    var deadline := Deadline(trace[..i], start, handshake);
    IsFrame(trace[i].input) && (deadline.Some? ==> trace[i].at <= deadline.value)
  }

  /** The loop reads the first `n` frames and not the next one. */
  ghost predicate ReadsExactly(trace: seq<Arrival>, start: nat, handshake: nat, n: nat) {
    && n <= |trace|
    && (forall i :: 0 <= i < n ==> Survives(trace, start, handshake, i))
    && (n < |trace| ==> !Survives(trace, start, handshake, n))
  }

  /** What happens after `n` frames, with the deadline those frames set. */
  function EndAfter(trace: seq<Arrival>, start: nat, handshake: nat, n: nat): Outcome
    requires n <= |trace|
  {
    var deadline := Deadline(trace[..n], start, handshake);
    if deadline.Some? && (n == |trace| || trace[n].at > deadline.value) then
      Dropped(n, deadline.value, if Greeted(trace[..n]) then NoTraffic else NoGreeting)
    else if n == |trace| then Waiting
    else Dropped(n, trace[n].at, if trace[n].input == EndOfStream then Closed else ReadError)
  }

  /** The read loop with its three locals; `trace` holds everything the peer ever sends. */
  method Run(trace: seq<Arrival>, start: nat, handshake: nat) returns (outcome: Outcome)
    ensures exists n :: ReadsExactly(trace, start, handshake, n) && outcome == EndAfter(trace, start, handshake, n)
  {
    var greetingDeadline := Some(start + handshake);
    var lastReceived := start;
    var armedWithKeepalive := false;
    var greeted, keepaliveSeen := false, false;
    var index := 0;
    while true
      invariant index <= |trace|
      invariant forall i :: 0 <= i < index ==> Survives(trace, start, handshake, i)
      invariant greeted == Greeted(trace[..index])
      invariant keepaliveSeen == armedWithKeepalive == Probed(trace[..index])
      invariant greetingDeadline == if greeted then None else Some(start + handshake)
      invariant index > 0 ==> lastReceived == trace[index - 1].at
      decreases |trace| - index
    {
      assert greeted ==> index > 0;
      var deadline :=
        if greetingDeadline.Some? then greetingDeadline
        else if armedWithKeepalive then Some(lastReceived + IDLE_TIMEOUT) else None;
      assert deadline == Deadline(trace[..index], start, handshake);
      if deadline.Some? && (index == |trace| || trace[index].at > deadline.value) {
        assert ReadsExactly(trace, start, handshake, index);
        return Dropped(index, deadline.value, if greetingDeadline.Some? then NoGreeting else NoTraffic);
      }
      if index == |trace| {
        assert ReadsExactly(trace, start, handshake, index);
        return Waiting;
      }
      var arrival := trace[index];
      if arrival.input == EndOfStream {
        assert ReadsExactly(trace, start, handshake, index);
        return Dropped(index, arrival.at, Closed);
      }
      if arrival.input == BadStream {
        assert ReadsExactly(trace, start, handshake, index);
        return Dropped(index, arrival.at, ReadError);
      }
      lastReceived := arrival.at;
      if arrival.input == HelloFrame(true) {
        greeted := true;
      }
      if arrival.input == KeepaliveFrame {
        keepaliveSeen := true;
      }
      if greetingDeadline.Some? && greeted {
        greetingDeadline := None;
      }
      if !armedWithKeepalive {
        armedWithKeepalive := keepaliveSeen;
      }
      assert trace[..index + 1] == trace[..index] + [arrival];
      index := index + 1;
    }
  }

  /** On a given trace the loop can only end in one way. */
  lemma OutcomeIsUnique(trace: seq<Arrival>, start: nat, handshake: nat, m: nat, n: nat)
    requires ReadsExactly(trace, start, handshake, m) && ReadsExactly(trace, start, handshake, n)
    ensures m == n
  {
  }

  lemma GreetedPrefix(trace: seq<Arrival>, m: nat, n: nat)
    requires m <= n <= |trace|
    ensures Greeted(trace[..m]) ==> Greeted(trace[..n])
    ensures Probed(trace[..m]) ==> Probed(trace[..n])
  {
    if Greeted(trace[..m]) {
      var i :| 0 <= i < m && trace[..m][i].input == HelloFrame(true);
      assert trace[..n][i].input == HelloFrame(true);
    }
    if Probed(trace[..m]) {
      var i :| 0 <= i < m && trace[..m][i].input == KeepaliveFrame;
      assert trace[..n][i].input == KeepaliveFrame;
    }
  }

  /**
   Whatever else it sends, a peer without an accepted nickname is dropped by the greeting
   deadline, and it is dropped for that reason exactly when its stream had not ended before.
   */
  lemma UngreetedIsDroppedInTime(trace: seq<Arrival>, start: nat, handshake: nat, n: nat)
    requires InOrder(trace, start) && ReadsExactly(trace, start, handshake, n)
    requires forall i :: 0 <= i < |trace| && trace[i].at <= start + handshake ==> trace[i].input != HelloFrame(true)
    ensures var outcome := EndAfter(trace, start, handshake, n);
      && outcome.Dropped? && outcome.at <= start + handshake
      && (outcome.reason == NoGreeting
          <==> forall i :: 0 <= i < |trace| && trace[i].at <= start + handshake ==> IsFrame(trace[i].input))
  {
    UngreetedReads(trace, start, handshake, n);
    if n < |trace| && trace[n].at <= start + handshake {
      assert !IsFrame(trace[n].input);
    } else {
      forall i | 0 <= i < |trace| && trace[i].at <= start + handshake ensures IsFrame(trace[i].input) {
        assert i < n;
        assert Survives(trace, start, handshake, i);
      }
    }
  }

  lemma {:induction false} UngreetedReads(trace: seq<Arrival>, start: nat, handshake: nat, n: nat)
    requires n <= |trace| && forall i :: 0 <= i < n ==> Survives(trace, start, handshake, i)
    requires forall i :: 0 <= i < |trace| && trace[i].at <= start + handshake ==> trace[i].input != HelloFrame(true)
    ensures !Greeted(trace[..n]) && forall i :: 0 <= i < n ==> trace[i].at <= start + handshake
  {
    if n > 0 {
      UngreetedReads(trace, start, handshake, n - 1);
      assert Survives(trace, start, handshake, n - 1);
      assert trace[..n] == trace[..n - 1] + [trace[n - 1]];
    }
  }

  /**
   A connection is dropped for silence only after an accepted hello and a keepalive, and
   only when nothing at all arrived during the idle timeout that ends then.
   */
  lemma IdleDropNeedsSilence(trace: seq<Arrival>, start: nat, handshake: nat, n: nat)
    requires InOrder(trace, start) && ReadsExactly(trace, start, handshake, n)
    requires EndAfter(trace, start, handshake, n).Dropped?
    requires EndAfter(trace, start, handshake, n).reason == NoTraffic
    ensures var at := EndAfter(trace, start, handshake, n).at;
      && n > 0 && Greeted(trace[..n]) && Probed(trace[..n])
      && at == trace[n - 1].at + IDLE_TIMEOUT
      && (forall i :: 0 <= i < |trace| ==> trace[i].at <= at - IDLE_TIMEOUT || trace[i].at > at)
  {
  }

  // ------------------------------------------- the outcome, on the trace alone

  /** An accepted hello is among the first `n` arrivals. */
  ghost predicate HelloBefore(trace: seq<Arrival>, n: nat) {
    exists h :: 0 <= h < n && h < |trace| && trace[h].input == HelloFrame(true)
  }

  ghost predicate KeepaliveBefore(trace: seq<Arrival>, n: nat) {
    exists k :: 0 <= k < n && k < |trace| && trace[k].input == KeepaliveFrame
  }

  /** When arrival `n` is due: by the greeting deadline, or an idle timeout after the one before it. */
  ghost predicate DueBy(trace: seq<Arrival>, start: nat, handshake: nat, n: nat, at: nat) {
    && (!HelloBefore(trace, n) ==> at <= start + handshake)
    && (0 < n <= |trace| && HelloBefore(trace, n) && KeepaliveBefore(trace, n) ==>
          at <= trace[n - 1].at + IDLE_TIMEOUT)
  }

  /** Arrival `i` is a frame, and not late. */
  ghost predicate Timely(trace: seq<Arrival>, start: nat, handshake: nat, i: nat) {
    i < |trace| && IsFrame(trace[i].input) && DueBy(trace, start, handshake, i, trace[i].at)
  }

  ghost predicate Flowing(trace: seq<Arrival>, start: nat, handshake: nat, n: nat) {
    n <= |trace| && forall i :: 0 <= i < n ==> Timely(trace, start, handshake, i)
  }

  /** Nothing arrives in time after the first `n` arrivals. */
  ghost predicate SilentAfter(trace: seq<Arrival>, n: nat, deadline: nat) {
    n == |trace| || (n < |trace| && trace[n].at > deadline)
  }

  lemma PrefixHistory(trace: seq<Arrival>, n: nat)
    requires n <= |trace|
    ensures Greeted(trace[..n]) <==> HelloBefore(trace, n)
    ensures Probed(trace[..n]) <==> KeepaliveBefore(trace, n)
  {
    if HelloBefore(trace, n) {
      var h :| 0 <= h < n && trace[h].input == HelloFrame(true);
      assert trace[..n][h].input == HelloFrame(true);
    }
    if KeepaliveBefore(trace, n) {
      var k :| 0 <= k < n && trace[k].input == KeepaliveFrame;
      assert trace[..n][k].input == KeepaliveFrame;
    }
  }

  lemma DeadlineOf(trace: seq<Arrival>, start: nat, handshake: nat, n: nat)
    requires n <= |trace|
    ensures HelloBefore(trace, n) ==> n > 0
    ensures Deadline(trace[..n], start, handshake)
         == if !HelloBefore(trace, n) then Some(start + handshake)
            else if KeepaliveBefore(trace, n) then Some(trace[n - 1].at + IDLE_TIMEOUT) else None
  {
    PrefixHistory(trace, n);
  }

  lemma DeadlineIsDue(trace: seq<Arrival>, start: nat, handshake: nat, n: nat, at: nat)
    requires n <= |trace|
    ensures var deadline := Deadline(trace[..n], start, handshake);
      DueBy(trace, start, handshake, n, at) <==> (deadline.Some? ==> at <= deadline.value)
  {
    DeadlineOf(trace, start, handshake, n);
  }

  lemma ReadsAreFlowing(trace: seq<Arrival>, start: nat, handshake: nat, n: nat)
    requires n <= |trace|
    ensures Flowing(trace, start, handshake, n) <==> forall i :: 0 <= i < n ==> Survives(trace, start, handshake, i)
  {
    forall i | 0 <= i < n ensures Survives(trace, start, handshake, i) <==> Timely(trace, start, handshake, i) {
      DeadlineIsDue(trace, start, handshake, i, trace[i].at);
    }
  }

  /** How a trace ends, told from its arrivals and their times. */
  ghost predicate EndsAs(trace: seq<Arrival>, start: nat, handshake: nat, outcome: Outcome) {
    match outcome
    case Waiting =>
      && Flowing(trace, start, handshake, |trace|)
      && HelloBefore(trace, |trace|) && !KeepaliveBefore(trace, |trace|)
    case Dropped(n, at, NoGreeting) =>
      && Flowing(trace, start, handshake, n) && !HelloBefore(trace, n)
      && at == start + handshake && SilentAfter(trace, n, at)
    case Dropped(n, at, NoTraffic) =>
      && 0 < n && Flowing(trace, start, handshake, n) && HelloBefore(trace, n) && KeepaliveBefore(trace, n)
      && at == trace[n - 1].at + IDLE_TIMEOUT && SilentAfter(trace, n, at)
    case Dropped(n, at, Closed) =>
      && Flowing(trace, start, handshake, n) && n < |trace| && DueBy(trace, start, handshake, n, trace[n].at)
      && trace[n].input == EndOfStream && at == trace[n].at
    case Dropped(n, at, ReadError) =>
      && Flowing(trace, start, handshake, n) && n < |trace| && DueBy(trace, start, handshake, n, trace[n].at)
      && trace[n].input == BadStream && at == trace[n].at
  }

  /** How many arrivals an outcome speaks of. */
  function Extent(trace: seq<Arrival>, outcome: Outcome): nat {
    match outcome
    case Waiting => |trace|
    case Dropped(n, _, _) => n
  }

  lemma LateOrNot(trace: seq<Arrival>, start: nat, handshake: nat, n: nat)
    requires n < |trace|
    ensures Survives(trace, start, handshake, n) <==> Timely(trace, start, handshake, n)
    ensures var deadline := Deadline(trace[..n], start, handshake);
      DueBy(trace, start, handshake, n, trace[n].at) <==> !(deadline.Some? && trace[n].at > deadline.value)
  {
    DeadlineIsDue(trace, start, handshake, n, trace[n].at);
  }

  /** What the loop does after `n` timely frames, told from the arrivals. */
  lemma EndIs(trace: seq<Arrival>, start: nat, handshake: nat, n: nat)
    requires n <= |trace|
    ensures var (greeted, probed) := (HelloBefore(trace, n), KeepaliveBefore(trace, n));
      EndAfter(trace, start, handshake, n)
      == if !greeted && SilentAfter(trace, n, start + handshake) then Dropped(n, start + handshake, NoGreeting)
         else if greeted && probed && SilentAfter(trace, n, trace[n - 1].at + IDLE_TIMEOUT)
         then Dropped(n, trace[n - 1].at + IDLE_TIMEOUT, NoTraffic)
         else if n == |trace| then Waiting
         else Dropped(n, trace[n].at, if trace[n].input == EndOfStream then Closed else ReadError)
  {
    DeadlineOf(trace, start, handshake, n);
    PrefixHistory(trace, n);
  }

  lemma EndFits(trace: seq<Arrival>, start: nat, handshake: nat, n: nat)
    requires ReadsExactly(trace, start, handshake, n)
    ensures EndsAs(trace, start, handshake, EndAfter(trace, start, handshake, n))
  {
    ReadsAreFlowing(trace, start, handshake, n);
    DeadlineOf(trace, start, handshake, n);
    EndIs(trace, start, handshake, n);
    if n < |trace| { LateOrNot(trace, start, handshake, n); }
  }

  lemma EndIsExact(trace: seq<Arrival>, start: nat, handshake: nat, outcome: Outcome)
    requires EndsAs(trace, start, handshake, outcome)
    ensures var n := Extent(trace, outcome);
      ReadsExactly(trace, start, handshake, n) && outcome == EndAfter(trace, start, handshake, n)
  {
    var n := Extent(trace, outcome);
    ReadsAreFlowing(trace, start, handshake, n);
    DeadlineOf(trace, start, handshake, n);
    EndIs(trace, start, handshake, n);
    if n < |trace| { LateOrNot(trace, start, handshake, n); }
  }

  /**
   The loop ends in a certain way exactly when the arrivals and their times say so: for want
   of a greeting, for silence after a greeting and a keepalive, at the end of the stream, on
   an error, or never.
   */
  lemma OutcomeIff(trace: seq<Arrival>, start: nat, handshake: nat, n: nat, outcome: Outcome)
    requires ReadsExactly(trace, start, handshake, n)
    ensures EndAfter(trace, start, handshake, n) == outcome <==> EndsAs(trace, start, handshake, outcome)
  {
    EndFits(trace, start, handshake, n);
    if EndsAs(trace, start, handshake, outcome) {
      EndIsExact(trace, start, handshake, outcome);
      OutcomeIsUnique(trace, start, handshake, n, Extent(trace, outcome));
    }
  }

  /**
   Silence after a greeting and a keepalive, whatever frames came since, is the end: the loop
   reads what came before it and drops the connection an idle timeout after the last frame.
   */
  lemma SilenceDrops(trace: seq<Arrival>, start: nat, handshake: nat, hello: nat, keepalive: nat, i: nat, n: nat)
    requires ReadsExactly(trace, start, handshake, n)
    requires hello <= i < |trace| && trace[hello].input == HelloFrame(true)
    requires keepalive <= i && trace[keepalive].input == KeepaliveFrame
    requires Flowing(trace, start, handshake, i + 1)
    requires i + 1 < |trace| ==> trace[i + 1].at > trace[i].at + IDLE_TIMEOUT
    ensures n == i + 1
    ensures EndAfter(trace, start, handshake, n) == Dropped(i + 1, trace[i].at + IDLE_TIMEOUT, NoTraffic)
  {
    OutcomeIff(trace, start, handshake, n, Dropped(i + 1, trace[i].at + IDLE_TIMEOUT, NoTraffic));
  }

  /** A greeted peer that never sends a keepalive is never dropped by a deadline. */
  lemma QuietOldPeerIsKept(trace: seq<Arrival>, start: nat, handshake: nat, n: nat, hello: nat)
    requires InOrder(trace, start) && ReadsExactly(trace, start, handshake, n)
    requires !Probed(trace)
    requires hello < |trace| && trace[hello].input == HelloFrame(true) && trace[hello].at <= start + handshake
    requires forall i :: 0 <= i < hello ==> IsFrame(trace[i].input)
    ensures var outcome := EndAfter(trace, start, handshake, n);
      outcome == Waiting || outcome.reason == Closed || outcome.reason == ReadError
    ensures (forall i :: 0 <= i < |trace| ==> IsFrame(trace[i].input)) ==>
      EndAfter(trace, start, handshake, n) == Waiting
  {
    assert trace[..|trace|] == trace;
    GreetedPrefix(trace, n, |trace|);
    if n <= hello {
      GreetingStillDue(trace, start, handshake, n);
      assert false;
    }
    assert trace[..n][hello].input == HelloFrame(true);
    if n < |trace| { assert !Survives(trace, start, handshake, n); }
  }

  lemma GreetingStillDue(trace: seq<Arrival>, start: nat, handshake: nat, i: nat)
    requires InOrder(trace, start) && i < |trace| && !Probed(trace)
    requires trace[i].at <= start + handshake && IsFrame(trace[i].input)
    ensures Survives(trace, start, handshake, i)
  {
    assert trace[..|trace|] == trace;
    GreetedPrefix(trace, i, |trace|);
  }

  // ------------------------------------------------------- the probe's cadence

  /** Every probe comes after the one before it, and within one period. */
  ghost predicate Steady(sends: seq<nat>, k: nat) {
    forall i, j :: 0 <= i < j < |sends| && j == i + 1 ==> sends[i] < sends[j] <= sends[i] + k
  }

  /**
   A peer that probes: `sends` are its keepalive times and `lands` says when the ones that
   were not shed arrive. Consecutive probes are at most `k` apart, an arrival is at most `d`
   late, at most `m` probes in a row go missing, and no other keepalive is in the trace.
   */
  ghost predicate Probing(trace: seq<Arrival>, sends: seq<nat>, lands: map<nat, nat>, k: nat, d: nat, m: nat) {
    && Steady(sends, k)
    && (forall j :: j in lands ==> j < |sends| && sends[j] <= lands[j] <= sends[j] + d)
    && (forall j :: 0 <= j && j + m < |sends| ==> SomeLands(lands, j, m))
    && (forall j :: j in lands ==> Arrival(lands[j], KeepaliveFrame) in trace)
    && (forall i :: 0 <= i < |trace| && trace[i].input == KeepaliveFrame ==> LandsAt(lands, trace[i].at))
  }

  ghost predicate SomeLands(lands: map<nat, nat>, j: nat, m: nat) {
    exists i: nat :: j <= i <= j + m && i in lands
  }

  ghost predicate LandsAt(lands: map<nat, nat>, at: nat) {
    exists j :: j in lands && lands[j] == at
  }

  /** The loop drops the connection for silence while the peer is still probing. */
  ghost predicate DroppedWhileProbing(trace: seq<Arrival>, start: nat, handshake: nat, n: nat, sends: seq<nat>) {
    && InOrder(trace, start) && ReadsExactly(trace, start, handshake, n)
    && var outcome := EndAfter(trace, start, handshake, n);
       && outcome.Dropped? && outcome.reason == NoTraffic
       && sends != [] && outcome.at <= sends[|sends| - 1]
  }

  lemma {:induction false} ProbeBound(sends: seq<nat>, k: nat, j: nat, i: nat)
    requires Steady(sends, k)
    requires j <= i < |sends|
    ensures sends[j] <= sends[i] <= sends[j] + (i - j) * k
    decreases i - j
  {
    if j < i {
      ProbeBound(sends, k, j, i - 1);
      assert (i - j) * k == (i - 1 - j) * k + k;
    }
  }

  /** The first probe after a time at or past the first probe comes within one period. */
  lemma {:induction false} NextProbe(sends: seq<nat>, k: nat, t: nat) returns (j: nat)
    requires Steady(sends, k)
    requires sends != [] && sends[0] <= t < sends[|sends| - 1]
    ensures 0 < j < |sends| && t < sends[j] <= t + k
  {
    var last := |sends| - 1;
    if sends[last - 1] <= t {
      j := last;
    } else {
      j := NextProbe(sends[..last], k, t);
    }
  }

  lemma ScaleBound(a: nat, b: nat, k: nat)
    requires a <= b
    ensures a * k <= b * k && (b + 1) * k == b * k + k
  {
  }

  /** The probes after `j` that may go missing are followed by one still in the schedule. */
  lemma WindowIsScheduled(sends: seq<nat>, k: nat, d: nat, m: nat, t: nat, j: nat)
    requires Steady(sends, k)
    requires k > 0 && (m + 1) * k + d <= IDLE_TIMEOUT
    requires 0 < j < |sends| && sends[j] <= t + k && t + IDLE_TIMEOUT <= sends[|sends| - 1]
    ensures j + m < |sends|
  {
    ProbeBound(sends, k, j, |sends| - 1);
    if j + m >= |sends| {
      ScaleBound(|sends| - 1 - j, m - 1, k);
      ScaleBound(m, m, k);
    }
  }

  /** Some probe arrives within the idle timeout that follows any moment of the schedule. */
  lemma ProbeWithinTimeout(trace: seq<Arrival>, sends: seq<nat>, lands: map<nat, nat>, k: nat, d: nat, m: nat, t: nat)
    returns (i: nat)
    requires k > 0 && (m + 1) * k + d <= IDLE_TIMEOUT && Probing(trace, sends, lands, k, d, m)
    requires sends != [] && sends[0] <= t && t + IDLE_TIMEOUT <= sends[|sends| - 1]
    ensures i in lands && t < lands[i] <= t + IDLE_TIMEOUT
  {
    var j := NextProbe(sends, k, t);
    WindowIsScheduled(sends, k, d, m, t, j);
    assert SomeLands(lands, j, m);
    i :| j <= i <= j + m && i in lands;
    ProbeBound(sends, k, j, i);
    ScaleBound(i - j, m, k);
  }

  lemma ProbingPreventsIdleDrop(trace: seq<Arrival>, start: nat, handshake: nat, n: nat,
                                sends: seq<nat>, lands: map<nat, nat>, k: nat, d: nat, m: nat)
    requires k > 0 && (m + 1) * k + d <= IDLE_TIMEOUT
    requires Probing(trace, sends, lands, k, d, m)
    ensures !DroppedWhileProbing(trace, start, handshake, n, sends)
  {
    if DroppedWhileProbing(trace, start, handshake, n, sends) {
      IdleDropNeedsSilence(trace, start, handshake, n);
      var last := trace[n - 1].at;
      FirstProbeIsPast(trace, start, n, sends, lands, k, d, m);
      var i := ProbeWithinTimeout(trace, sends, lands, k, d, m, last);
    }
  }

  lemma FirstProbeIsPast(trace: seq<Arrival>, start: nat, n: nat,
                         sends: seq<nat>, lands: map<nat, nat>, k: nat, d: nat, m: nat)
    requires InOrder(trace, start) && Probing(trace, sends, lands, k, d, m)
    requires 0 < n <= |trace| && Probed(trace[..n])
    ensures sends != [] && sends[0] <= trace[n - 1].at
  {
    var i :| 0 <= i < n && trace[..n][i].input == KeepaliveFrame;
    assert trace[i].input == KeepaliveFrame;
    assert LandsAt(lands, trace[i].at);
    var j :| j in lands && lands[j] == trace[i].at;
    ProbeBound(sends, k, 0, j);
  }

  function Tick(j: nat, k: nat): nat {
    j * k
  }

  /** The worst schedule: one probe at once, `m` missing, and every later one fully late. */
  lemma LateProbesAreDropped(k: nat, d: nat, m: nat)
    returns (trace: seq<Arrival>, sends: seq<nat>, lands: map<nat, nat>)
    requires k > 0 && (m + 1) * k + d > IDLE_TIMEOUT
    ensures Probing(trace, sends, lands, k, d, m) && DroppedWhileProbing(trace, 0, 0, 2, sends)
  {
    var late := IDLE_TIMEOUT + 1;
    var count := m + 1 + late;
    sends := seq(count, (j: nat) => Tick(j, k));
    lands := map j: nat | j < count && (j == 0 || j > m) :: if j == 0 then 0 else Tick(j, k) + d;
    var tail := seq(late, (t: nat) => Arrival(Tick(m + 1 + t, k) + d, KeepaliveFrame));
    trace := [Arrival(0, HelloFrame(true)), Arrival(0, KeepaliveFrame)] + tail;
    forall i, j | 0 <= i < j ensures i * k < j * k { MultipleGrows(i, j, k); }
    assert forall i :: 2 <= i < |trace| ==> trace[i] == tail[i - 2];
    WorstScheduleProbes(trace, sends, lands, k, d, m);
    WorstScheduleDrops(trace, sends, k, d, m);
  }

  lemma MultipleGrows(i: nat, j: nat, k: nat)
    requires i < j && k > 0
    ensures i * k < j * k && (j == i + 1 ==> j * k == i * k + k) && j <= j * k
  {
    assert j * k == i * k + (j - i) * k;
    assert (j - i) * k == (j - i - 1) * k + k && (j - i - 1) * k >= 0;
    assert j * k == j * (k - 1) + j && j * (k - 1) >= 0;
  }

  lemma WorstScheduleIsSteady(sends: seq<nat>, k: nat)
    requires k > 0 && forall j :: 0 <= j < |sends| ==> sends[j] == Tick(j, k)
    ensures Steady(sends, k)
  {
    forall i, j | 0 <= i < j < |sends| && j == i + 1 ensures sends[i] < sends[j] <= sends[i] + k {
      MultipleGrows(i, j, k);
    }
  }

  lemma WorstScheduleLands(trace: seq<Arrival>, lands: map<nat, nat>, n: nat, k: nat, d: nat, m: nat)
    requires n == m + 2 + IDLE_TIMEOUT && |trace| == 3 + IDLE_TIMEOUT
    requires forall j: nat :: j in lands <==> j < n && (j == 0 || j > m)
    requires forall j: nat :: j in lands ==> lands[j] == if j == 0 then 0 else Tick(j, k) + d
    requires trace[0] == Arrival(0, HelloFrame(true)) && trace[1] == Arrival(0, KeepaliveFrame)
    requires forall i :: 2 <= i < |trace| ==> trace[i] == Arrival(Tick(m - 1 + i, k) + d, KeepaliveFrame)
    ensures forall j :: j in lands ==> Arrival(lands[j], KeepaliveFrame) in trace
    ensures forall i :: 0 <= i < |trace| && trace[i].input == KeepaliveFrame ==> LandsAt(lands, trace[i].at)
  {
    forall j | j in lands ensures Arrival(lands[j], KeepaliveFrame) in trace {
      assert Arrival(lands[j], KeepaliveFrame) == trace[if j == 0 then 1 else j + 1 - m];
    }
    forall i | 0 <= i < |trace| && trace[i].input == KeepaliveFrame ensures LandsAt(lands, trace[i].at) {
      var j := if i == 1 then 0 else m - 1 + i;
      assert j in lands && lands[j] == trace[i].at;
    }
  }

  lemma WorstScheduleMissesFew(lands: map<nat, nat>, n: nat, m: nat)
    requires forall j: nat :: j in lands <==> j < n && (j == 0 || j > m)
    ensures forall j :: 0 <= j && j + m < n ==> SomeLands(lands, j, m)
  {
    forall j | 0 <= j && j + m < n ensures SomeLands(lands, j, m) {
      assert j in lands || j + m in lands;
    }
  }

  lemma WorstScheduleIsLate(sends: seq<nat>, lands: map<nat, nat>, k: nat, d: nat, m: nat)
    requires forall j :: 0 <= j < |sends| ==> sends[j] == Tick(j, k)
    requires forall j: nat :: j in lands <==> j < |sends| && (j == 0 || j > m)
    requires forall j: nat :: j in lands ==> lands[j] == if j == 0 then 0 else Tick(j, k) + d
    ensures forall j :: j in lands ==> j < |sends| && sends[j] <= lands[j] <= sends[j] + d
  {
  }

  lemma WorstScheduleProbes(trace: seq<Arrival>, sends: seq<nat>, lands: map<nat, nat>, k: nat, d: nat, m: nat)
    requires k > 0 && |sends| == m + 2 + IDLE_TIMEOUT && |trace| == 3 + IDLE_TIMEOUT
    requires forall j :: 0 <= j < |sends| ==> sends[j] == Tick(j, k)
    requires forall j: nat :: j in lands <==> j < |sends| && (j == 0 || j > m)
    requires forall j: nat :: j in lands ==> lands[j] == if j == 0 then 0 else Tick(j, k) + d
    requires trace[0] == Arrival(0, HelloFrame(true)) && trace[1] == Arrival(0, KeepaliveFrame)
    requires forall i :: 2 <= i < |trace| ==> trace[i] == Arrival(Tick(m - 1 + i, k) + d, KeepaliveFrame)
    ensures Probing(trace, sends, lands, k, d, m)
  {
    WorstScheduleIsSteady(sends, k);
    WorstScheduleLands(trace, lands, |sends|, k, d, m);
    WorstScheduleMissesFew(lands, |sends|, m);
    WorstScheduleIsLate(sends, lands, k, d, m);
  }

  lemma WorstScheduleDrops(trace: seq<Arrival>, sends: seq<nat>, k: nat, d: nat, m: nat)
    requires k > 0 && (m + 1) * k + d > IDLE_TIMEOUT
    requires |sends| == m + 2 + IDLE_TIMEOUT && |trace| == 3 + IDLE_TIMEOUT
    requires forall j :: 0 <= j < |sends| ==> sends[j] == Tick(j, k)
    requires trace[0] == Arrival(0, HelloFrame(true)) && trace[1] == Arrival(0, KeepaliveFrame)
    requires forall i :: 2 <= i < |trace| ==> trace[i] == Arrival(Tick(m - 1 + i, k) + d, KeepaliveFrame)
    ensures DroppedWhileProbing(trace, 0, 0, 2, sends)
  {
    forall i, j | 0 <= i < j < |trace| ensures trace[i].at <= trace[j].at {
      if i >= 2 { MultipleGrows(m - 1 + i, m - 1 + j, k); }
    }
    MultipleGrows(0, |sends| - 1, k);
    assert trace[..1][0].input == HelloFrame(true);
    assert trace[..2][0].input == HelloFrame(true) && trace[..2][1].input == KeepaliveFrame;
    assert !Probed(trace[..1]);
    assert trace[2].at == (m + 1) * k + d;
    assert Survives(trace, 0, 0, 0) && Survives(trace, 0, 0, 1) && !Survives(trace, 0, 0, 2);
  }

  /** Whether no connection to a peer with this cadence is ever dropped for silence. */
  ghost predicate CadenceIsSafe(k: nat, d: nat, m: nat) {
    forall trace: seq<Arrival>, start: nat, handshake: nat, n: nat, sends: seq<nat>, lands: map<nat, nat> ::
      Probing(trace, sends, lands, k, d, m) ==> !DroppedWhileProbing(trace, start, handshake, n, sends)
  }

  /**
   A cadence is safe in every run exactly when the probes that may go missing, the next one,
   and the delivery delay fit in the idle timeout together.
   */
  lemma CadenceIsSafeIff(k: nat, d: nat, m: nat)
    requires k > 0
    ensures CadenceIsSafe(k, d, m) <==> (m + 1) * k + d <= IDLE_TIMEOUT
  {
    if (m + 1) * k + d <= IDLE_TIMEOUT {
      forall trace: seq<Arrival>, start: nat, handshake: nat, n: nat, sends: seq<nat>, lands: map<nat, nat>
        | Probing(trace, sends, lands, k, d, m)
        ensures !DroppedWhileProbing(trace, start, handshake, n, sends)
      {
        ProbingPreventsIdleDrop(trace, start, handshake, n, sends, lands, k, d, m);
      }
    } else {
      var trace, sends, lands := LateProbesAreDropped(k, d, m);
    }
  }

  lemma OneMayMiss(k: nat, d: nat)
    requires k <= DEFAULT_KEEPALIVE_INTERVAL && d <= DEFAULT_KEEPALIVE_INTERVAL
    ensures (1 + 1) * k + d <= IDLE_TIMEOUT
  {
  }

  /** Every configurable cadence tolerates one lost probe and a delay of one default period. */
  lemma ConfiguredCadenceIsSafe(k: nat, d: nat)
    requires MIN_KEEPALIVE_INTERVAL <= k <= DEFAULT_KEEPALIVE_INTERVAL && d <= DEFAULT_KEEPALIVE_INTERVAL
    ensures CadenceIsSafe(k, d, 1)
  {
    OneMayMiss(k, d);
    CadenceIsSafeIff(k, d, 1);
  }
}
