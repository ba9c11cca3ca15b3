/**
 What the supervisor does, told from the history of a run: which addresses were asked for, what
 their dials reached, and what was closed since.
 */
module Reconnection {
  import opened Wrappers
  import opened Text
  import opened Supervision

  // ----------------------------------------------------------------- the history

  /** The remote a step's dial of this address reached, if it dialled it and reached one. */
  function Reach(s: Net, step: Step, a: string): Option<Addr> {
    match step
    case Connect(address, Reached(remote)) => if address == a then Some(remote) else None
    case Dial(Reached(remote)) => if s.pending != [] && s.pending[0] == a then Some(remote) else None
    case _ => None
  }

  /** A step's dial of this address failed in a way that is counted. */
  predicate FailsOnce(s: Net, step: Step, a: string) {
    match step
    case Connect(address, Failed(counted)) => address == a && counted
    case Dial(Failed(counted)) => s.pending != [] && s.pending[0] == a && counted
    case _ => false
  }

  /** Somebody asks for the address. */
  predicate AsksFor(step: Step, a: string) {
    (step == Desire(a) || (step.Connect? && step.address == a)) && Trim(a) != ""
  }

  /** A connection to an address; `early` when its remote was still being closed as it was reached. */
  datatype Contact = Contact(remote: Addr, early: bool)

  /**
   What the history says of one address: whether it was asked for or reached since the last
   shutdown; the connection its latest dial led to, unless that was closed since; what the latest
   dial reached, unless the end of that remote was reported since; and how often dials of it have
   failed in a row.
   */
  datatype Past = Past(wanted: bool, contact: Option<Contact>, mark: Option<Addr>, failures: nat)

  const NOTHING: Past := Past(false, None, None, 0)

  ghost function Grown(s: Net, past: Past, step: Step, a: string): Past {
    var reached := Reach(s, step, a);
    var wanted := past.wanted || AsksFor(step, a);
    if step == Shutdown then NOTHING
    else if reached.Some? then Past(true, Some(Contact(reached.value, reached.value in s.closing)), reached, 0)
    else
      Past(wanted,
           if past.contact.Some? && step == Remove(past.contact.value.remote) then None else past.contact,
           if past.mark.Some? && step == Unmark(past.mark.value) && past.mark.value in s.closing then None
           else past.mark,
           past.failures + if wanted && FailsOnce(s, step, a) then 1 else 0)
  }

  ghost function PastOf(steps: seq<Step>, a: string): Past
    decreases |steps|
  {
    if steps == [] then NOTHING
    else
      Grown(After(START, steps[..|steps| - 1]), PastOf(steps[..|steps| - 1], a), steps[|steps| - 1], a)
  }

  /** The remote a step registers: one that was reached, or one accepted while there was room. */
  function Registered(s: Net, step: Step): Option<Addr> {
    match step
    case Connect(_, Reached(remote)) => Some(remote)
    case Dial(Reached(remote)) => if s.pending != [] then Some(remote) else None
    case Accept(remote, limit) => if |s.peers| < limit then Some(remote) else None
    case _ => None
  }

  /** The remote was registered and not closed since. */
  ghost predicate Open(steps: seq<Step>, remote: Addr)
    decreases |steps|
  {
    steps != [] &&
    var (init, last) := (steps[..|steps| - 1], steps[|steps| - 1]);
    || Registered(After(START, init), last) == Some(remote)
    || (last != Shutdown && last != Remove(remote) && Open(init, remote))
  }

  // -------------------------------------------------- the state follows the history

  function Least(a: nat, b: nat): nat {
    if a <= b then a else b
  }

  /** What the wishes hold of an address is what the history tells. */
  predicate Tells(s: Net, past: Past, a: string) {
    && (a in s.desired <==> past.wanted)
    && (if a in s.desired
        then s.desired[a] == Desired(past.mark, Least(ATTEMPTS_MAX, past.failures))
        else past.mark == None && past.failures == 0)
  }

  /** How the connection and the mark of an address differ while remotes are being closed. */
  predicate Related(closing: multiset<Addr>, past: Past) {
    match (past.contact, past.mark)
    case (None, None) => true
    case (None, Some(remote)) => remote in closing
    case (Some(c), None) => c.early
    case (Some(c), Some(remote)) => remote == c.remote && (c.early <==> remote in closing)
  }

  /** The end of a dial concerns its own address only. */
  lemma EndTells(s: Net, address: string, outcome: Outcome, a: string)
    requires a in s.desired ==> s.desired[a].attempts <= ATTEMPTS_MAX
    ensures var s' := Ended(s, address, outcome);
      && s'.closing == s.closing && s'.pending == s.pending
      && (if a == address && outcome.Reached? then
            a in s'.desired && s'.desired[a] == Desired(Some(outcome.remote), 0)
          else if a == address && outcome.counted && a in s.desired then
            a in s'.desired && s'.desired[a]
              == Desired(s.desired[a].resolved, Least(ATTEMPTS_MAX, s.desired[a].attempts + 1))
          else
            (a in s'.desired <==> a in s.desired) && (a in s.desired ==> s'.desired[a] == s.desired[a]))
  {
  }

  lemma StepTells(s: Net, past: Past, step: Step, a: string)
    requires Tells(s, past, a)
    ensures Tells(Apply(s, step), Grown(s, past, step, a), a)
  {
    match step
    case Connect(address, outcome) => EndTells(s.(desired := Wish(s.desired, address)), address, outcome, a);
    case Dial(outcome) =>
      if s.pending != [] { EndTells(s.(pending := s.pending[1..]), s.pending[0], outcome, a); }
    case _ =>
  }

  lemma StepRelates(s: Net, past: Past, step: Step, a: string)
    requires Related(s.closing, past)
    ensures Related(Apply(s, step).closing, Grown(s, past, step, a))
  {
  }

  /** In every run the wishes, their marks and their failure counts are what the history tells. */
  lemma {:induction false} WishesFollowHistory(steps: seq<Step>, a: string)
    ensures Tells(After(START, steps), PastOf(steps, a), a)
    ensures Related(After(START, steps).closing, PastOf(steps, a))
    decreases |steps|
  {
    if steps != [] {
      var (init, last) := (steps[..|steps| - 1], steps[|steps| - 1]);
      WishesFollowHistory(init, a);
      StepTells(After(START, init), PastOf(init, a), last, a);
      StepRelates(After(START, init), PastOf(init, a), last, a);
    }
  }

  lemma StepRegisters(s: Net, step: Step, remote: Addr)
    ensures remote in Apply(s, step).peers
       <==> Registered(s, step) == Some(remote)
            || (step != Shutdown && step != Remove(remote) && remote in s.peers)
  {
  }

  /** In every run the registry holds exactly the remotes reached or accepted and not closed since. */
  lemma {:induction false} RegistryFollowsHistory(steps: seq<Step>, remote: Addr)
    ensures remote in After(START, steps).peers <==> Open(steps, remote)
    decreases |steps|
  {
    if steps != [] {
      RegistryFollowsHistory(steps[..|steps| - 1], remote);
      StepRegisters(After(START, steps[..|steps| - 1]), steps[|steps| - 1], remote);
    }
  }

  /**
   In every run, while no remote is half closed: a round started now dials exactly the addresses
   asked for whose latest dial led to no connection that is still open, and those that were
   reached again before the end of their previous connection had been reported.
   */
  lemma RoundDialsTheUnconnected(steps: seq<Step>, a: string)
    ensures var (s, past) := (After(START, steps), PastOf(steps, a));
      s.closing == multiset{} ==>
        (a in Unresolved(s.desired) <==> past.wanted && (past.contact == None || past.contact.value.early))
  {
    WishesFollowHistory(steps, a);
  }

  /**
   Whatever else happens meanwhile, by the time the supervisor can start its next round it has
   dialled, once each, every address that had no connection when this round started.
   */
  lemma EveryGapIsDialled(steps: seq<Step>, order: seq<string>, rest: seq<Step>, a: string)
    requires WithinRound(rest)
    ensures var (s, past) := (After(START, steps), PastOf(steps, a));
      var round := Apply(s, Tick(order));
      s.closing == multiset{} && s.pending == [] && Lists(order, Unresolved(s.desired))
      && After(round, rest).pending == []
      ==> Dialled(round, rest) == order
          && (a in order <==> past.wanted && (past.contact == None || past.contact.value.early))
  {
    RoundDialsTheUnconnected(steps, a);
    RoundIsDialledInOrder(Apply(After(START, steps), Tick(order)), rest);
  }

  lemma AfterOnce(steps: seq<Step>, step: Step, a: string)
    ensures After(START, steps + [step]) == Apply(After(START, steps), step)
    ensures PastOf(steps + [step], a) == Grown(After(START, steps), PastOf(steps, a), step, a)
  {
    assert (steps + [step])[..|steps|] == steps;
  }

  /** What a step makes of a state and of the past of an address. */
  ghost function Both(s: Net, past: Past, step: Step, a: string): (Net, Past) {
    (Apply(s, step), Grown(s, past, step, a))
  }

  lemma EarlyStages(a: string, remote: Addr)
    ensures var (dial, remove, unmark) := (Connect(a, Reached(remote)), Remove(remote), Unmark(remote));
      var b1 := Both(START, NOTHING, dial, a);
      var b2 := Both(b1.0, b1.1, remove, a);
      var b3 := Both(b2.0, b2.1, dial, a);
      var b4 := Both(b3.0, b3.1, unmark, a);
      && b4.0.closing == multiset{} && remote in b4.0.peers && a in Unresolved(b4.0.desired)
      && b4.1.contact == Some(Contact(remote, true))
  {
  }

  /** A dial reaches a remote, it is closed, reached again, and only then is its first end reported. */
  lemma EarlyIsDialledAgain(a: string, remote: Addr) returns (steps: seq<Step>)
    ensures var (s, past) := (After(START, steps), PastOf(steps, a));
      && s.closing == multiset{} && remote in s.peers && a in Unresolved(s.desired)
      && past.contact == Some(Contact(remote, true))
  {
    EarlyStages(a, remote);
    var (dial, remove, unmark) := (Connect(a, Reached(remote)), Remove(remote), Unmark(remote));
    var one := [] + [dial];
    var two := one + [remove];
    var three := two + [dial];
    AfterOnce([], dial, a);
    AfterOnce(one, remove, a);
    AfterOnce(two, dial, a);
    AfterOnce(three, unmark, a);
    steps := three + [unmark];
  }

  // ------------------------------------------------- a connected address is left alone

  /** Neither the end of this remote is reported nor the node shut down, and no dial by hand leads elsewhere. */
  predicate LeavesAlone(step: Step, a: string, remote: Addr) {
    && step != Unmark(remote) && step != Shutdown
    && (step.Connect? && step.address == a && step.outcome.Reached? ==> step.outcome.remote == remote)
  }

  predicate Marked(s: Net, a: string, remote: Addr) {
    a !in s.pending && a in s.desired && s.desired[a].resolved == Some(remote)
  }

  lemma StaysMarked(s: Net, step: Step, a: string, remote: Addr)
    requires LeavesAlone(step, a, remote) && Marked(s, a, remote)
    ensures Marked(Apply(s, step), a, remote) && a !in Next(s, step)
  {
    if step.Tick? { assert a !in Unresolved(s.desired); }
  }

  lemma {:induction false} MarkedIsNotDialled(s: Net, rest: seq<Step>, a: string, remote: Addr)
    requires Marked(s, a, remote) && forall i :: 0 <= i < |rest| ==> LeavesAlone(rest[i], a, remote)
    ensures Marked(After(s, rest), a, remote) && a !in Dialled(s, rest)
    decreases |rest|
  {
    if rest != [] {
      var init := rest[..|rest| - 1];
      MarkedIsNotDialled(s, init, a, remote);
      StaysMarked(After(s, init), rest[|rest| - 1], a, remote);
    }
  }

  ghost predicate NoneTwice(order: seq<string>) {
    forall i, j :: 0 <= i < j < |order| ==> order[i] != order[j]
  }

  lemma StepPending(s: Net, step: Step)
    ensures var pending := Apply(s, step).pending;
      || pending == [] || pending == s.pending || (s.pending != [] && pending == s.pending[1..])
      || (step.Tick? && pending == step.order && NoneTwice(pending))
  {
  }

  /** A round lists no address twice. */
  lemma {:induction false} PendingIsDistinct(steps: seq<Step>)
    ensures NoneTwice(After(START, steps).pending)
    decreases |steps|
  {
    if steps != [] {
      var init := steps[..|steps| - 1];
      PendingIsDistinct(init);
      StepPending(After(START, init), steps[|steps| - 1]);
    }
  }

  /**
   Once a dial has reached a remote, no later round lists or dials that address until the end of
   that remote is reported, the node shuts down, or a dial by hand leads elsewhere. Only a round
   that had listed the address before a dial by hand still comes to it.
   */
  lemma ConnectedIsNotDialled(steps: seq<Step>, step: Step, rest: seq<Step>, a: string, remote: Addr)
    requires Reach(After(START, steps), step, a) == Some(remote)
    requires step.Connect? ==> a !in After(START, steps).pending
    requires forall i :: 0 <= i < |rest| ==> LeavesAlone(rest[i], a, remote)
    ensures var s := Apply(After(START, steps), step);
      a !in Unresolved(After(s, rest).desired) && a !in After(s, rest).pending && a !in Dialled(s, rest)
  {
    var s := Apply(After(START, steps), step);
    PendingIsDistinct(steps);
    MarkedIsNotDialled(s, rest, a, remote);
  }

  /** The end of one address's dial leaves every other address as it was. */
  lemma OtherAddressesKeep(steps: seq<Step>, step: Step, a: string)
    requires step.Connect? || step.Dial?
    requires Reach(After(START, steps), step, a) == None && !AsksFor(step, a)
    requires !FailsOnce(After(START, steps), step, a)
    ensures var (s, s') := (After(START, steps), Apply(After(START, steps), step));
      && (a in s'.desired <==> a in s.desired) && (a in s.desired ==> s'.desired[a] == s.desired[a])
  {
  }
}
