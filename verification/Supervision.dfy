/** The peers a node keeps connected: the registry, the wished-for addresses and the supervisor's rounds. */
module Supervision {
  import opened Wrappers
  import opened Text

  const ATTEMPTS_MAX: nat := 0xFFFF_FFFF

  datatype Addr = Addr(host: string, port: nat)

  datatype Desired = Desired(resolved: Option<Addr>, attempts: nat)

  type Wishes = map<string, Desired>

  /** What became of a dial; not every failure is counted. */
  datatype Outcome = Reached(remote: Addr) | Failed(counted: bool)

  /**
   The shared state. `closing` are the connections whose reader has left the registry but
   not yet told the wishes; `pending` is what the supervisor's current round has still to dial.
   */
  datatype Net = Net(peers: set<Addr>, desired: Wishes, closing: multiset<Addr>, pending: seq<string>)

  datatype Step =
    | Desire(address: string)
    | Connect(address: string, outcome: Outcome)
    | Accept(remote: Addr, limit: nat)
    | Tick(order: seq<string>)
    | Dial(outcome: Outcome)
    | Remove(remote: Addr)
    | Unmark(remote: Addr)
    | Shutdown

  const FRESH: Desired := Desired(None, 0)

  function Wish(d: Wishes, address: string): Wishes {
    if Trim(address) == "" || address in d then d else d[address := FRESH]
  }

  function Entry(d: Wishes, address: string): Desired {
    if address in d then d[address] else FRESH
  }

  function Marked(d: Wishes, address: string, resolved: Option<Addr>): Wishes {
    d[address := Desired(resolved, if resolved.Some? then 0 else Entry(d, address).attempts)]
  }

  function Noted(d: Wishes, address: string): Wishes {
    if address !in d then d
    else d[address := d[address].(attempts := if d[address].attempts >= ATTEMPTS_MAX then ATTEMPTS_MAX
                                              else d[address].attempts + 1)]
  }

  function Cleared(d: Desired, remote: Addr): Desired {
    if d.resolved == Some(remote) then d.(resolved := None) else d
  }

  function Unmarked(d: Wishes, remote: Addr): Wishes {
    map a | a in d :: Cleared(d[a], remote)
  }

  /** The wished-for addresses that are not marked connected: what a round dials. */
  function Unresolved(d: Wishes): set<string> {
    set a | a in d && d[a].resolved.None?
  }

  ghost predicate Lists(order: seq<string>, names: set<string>) {
    && (forall a :: a in names <==> a in order)
    && (forall i, j :: 0 <= i < j < |order| ==> order[i] != order[j])
  }

  /** A dial of an address has ended. */
  function Ended(s: Net, address: string, outcome: Outcome): Net {
    match outcome
    case Reached(remote) =>
      s.(peers := s.peers + {remote}, desired := Marked(s.desired, address, Some(remote)))
    case Failed(counted) => if counted then s.(desired := Noted(s.desired, address)) else s
  }

  ghost function Apply(s: Net, step: Step): Net {
    match step
    case Desire(address) => s.(desired := Wish(s.desired, address))
    case Connect(address, outcome) => Ended(s.(desired := Wish(s.desired, address)), address, outcome)
    case Accept(remote, limit) => if |s.peers| >= limit then s else s.(peers := s.peers + {remote})
    case Tick(order) =>
      if s.pending == [] && Lists(order, Unresolved(s.desired)) then s.(pending := order) else s
    case Dial(outcome) =>
      if s.pending == [] then s else Ended(s.(pending := s.pending[1..]), s.pending[0], outcome)
    case Remove(remote) => s.(peers := s.peers - {remote}, closing := s.closing + multiset{remote})
    case Unmark(remote) =>
      if remote !in s.closing then s
      else s.(desired := Unmarked(s.desired, remote), closing := s.closing - multiset{remote})
    case Shutdown => s.(peers := {}, desired := map[], pending := [])
  }

  ghost function After(s: Net, steps: seq<Step>): Net
    decreases |steps|
  {
    if steps == [] then s else Apply(After(s, steps[..|steps| - 1]), steps[|steps| - 1])
  }

  const START: Net := Net({}, map[], multiset{}, [])

  // ------------------------------------------------------------- the invariant

  predicate Connected(s: Net, address: string) {
    address in s.desired && s.desired[address].resolved.Some? && s.desired[address].resolved.value in s.peers
  }

  predicate MarkHolds(s: Net, a: string) {
    a in s.desired && s.desired[a].resolved.Some? ==>
      s.desired[a].resolved.value in s.peers || s.desired[a].resolved.value in s.closing
  }

  /** An address marked connected has a connection, or one that is just being closed. */
  ghost predicate MarksHold(s: Net) {
    forall a :: MarkHolds(s, a)
  }

  lemma EndKeepsMark(s: Net, address: string, outcome: Outcome, a: string)
    requires MarkHolds(s, a)
    ensures MarkHolds(Ended(s, address, outcome), a)
  {
  }

  lemma StepKeepsMark(s: Net, step: Step, a: string)
    requires MarkHolds(s, a)
    ensures MarkHolds(Apply(s, step), a)
  {
    match step
    case Connect(address, outcome) => EndKeepsMark(s.(desired := Wish(s.desired, address)), address, outcome, a);
    case Dial(outcome) =>
      if s.pending != [] { EndKeepsMark(s.(pending := s.pending[1..]), s.pending[0], outcome, a); }
    case _ =>
  }

  lemma StepKeepsMarks(s: Net, step: Step)
    requires MarksHold(s)
    ensures MarksHold(Apply(s, step))
  {
    forall a ensures MarkHolds(Apply(s, step), a) {
      StepKeepsMark(s, step, a);
    }
  }

  lemma {:induction false} RunKeepsMarks(steps: seq<Step>)
    ensures MarksHold(After(START, steps))
    decreases |steps|
  {
    if steps != [] {
      RunKeepsMarks(steps[..|steps| - 1]);
      StepKeepsMarks(After(START, steps[..|steps| - 1]), steps[|steps| - 1]);
    }
  }

  /** An address without a connection that a round would miss is one that is just being closed. */
  lemma OverlookedIsBeingClosed(steps: seq<Step>, address: string)
    ensures var s := After(START, steps);
      address in s.desired && !Connected(s, address) && address !in Unresolved(s.desired) ==>
        s.desired[address].resolved.value in s.closing
        && address in Unresolved(Apply(s, Unmark(s.desired[address].resolved.value)).desired)
  {
    RunKeepsMarks(steps);
    assert MarkHolds(After(START, steps), address);
  }

  // ------------------------------------------------------------ a whole round

  function Next(s: Net, step: Step): seq<string> {
    if step.Dial? && s.pending != [] then [s.pending[0]] else []
  }

  /** The addresses dialled by the supervisor during a run. */
  ghost function Dialled(s: Net, steps: seq<Step>): seq<string>
    decreases |steps|
  {
    if steps == [] then []
    else
      Dialled(s, steps[..|steps| - 1]) + Next(After(s, steps[..|steps| - 1]), steps[|steps| - 1])
  }

  predicate WithinRound(steps: seq<Step>) {
    forall i :: 0 <= i < |steps| ==> !steps[i].Tick? && !steps[i].Shutdown?
  }

  lemma StepDialsNext(s: Net, step: Step)
    requires !step.Tick? && !step.Shutdown?
    ensures Next(s, step) + Apply(s, step).pending == s.pending
  {
  }

  lemma {:induction false} RoundIsDialledInOrder(s: Net, steps: seq<Step>)
    requires WithinRound(steps)
    ensures Dialled(s, steps) + After(s, steps).pending == s.pending
    decreases |steps|
  {
    if steps != [] {
      var (init, last) := (steps[..|steps| - 1], steps[|steps| - 1]);
      RoundIsDialledInOrder(s, init);
      StepDialsNext(After(s, init), last);
      assert Dialled(s, init) + (Next(After(s, init), last) + After(s, steps).pending)
          == (Dialled(s, init) + Next(After(s, init), last)) + After(s, steps).pending;
    }
  }

  // -------------------------------------------- registering and marking apart

  /** The machine with a moment between registering a dialled connection and marking its address. */
  datatype SplitNet = SplitNet(net: Net, marking: multiset<(string, Addr)>)

  datatype SplitStep =
    | Plain(step: Step)
    | Register(address: string, remote: Addr)
    | MarkLate(address: string, remote: Addr)

  ghost function SplitApply(s: SplitNet, step: SplitStep): SplitNet {
    match step
    case Plain(plain) => s.(net := Apply(s.net, plain))
    case Register(address, remote) =>
      SplitNet(s.net.(peers := s.net.peers + {remote}), s.marking + multiset{(address, remote)})
    case MarkLate(address, remote) =>
      if (address, remote) !in s.marking then s
      else SplitNet(s.net.(desired := Marked(s.net.desired, address, Some(remote))),
                    s.marking - multiset{(address, remote)})
  }

  ghost function SplitAfter(s: SplitNet, steps: seq<SplitStep>): SplitNet
    decreases |steps|
  {
    if steps == [] then s else SplitApply(SplitAfter(s, steps[..|steps| - 1]), steps[|steps| - 1])
  }

  /** A late mark that still finds its connection, or one that is just being closed. */
  ghost predicate InTime(s: SplitNet, step: SplitStep) {
    step.MarkLate? && (step.address, step.remote) in s.marking ==>
      step.remote in s.net.peers || step.remote in s.net.closing
  }

  ghost predicate AlwaysInTime(s: SplitNet, steps: seq<SplitStep>)
    decreases |steps|
  {
    steps == []
    || (AlwaysInTime(s, steps[..|steps| - 1]) && InTime(SplitAfter(s, steps[..|steps| - 1]), steps[|steps| - 1]))
  }

  ghost predicate MarksAlwaysHold(s: SplitNet, steps: seq<SplitStep>)
    decreases |steps|
  {
    MarksHold(SplitAfter(s, steps).net) && (steps == [] || MarksAlwaysHold(s, steps[..|steps| - 1]))
  }

  lemma LateMarkKeepsIff(s: SplitNet, step: SplitStep)
    requires MarksHold(s.net)
    ensures MarksHold(SplitApply(s, step).net) <==> InTime(s, step)
  {
    match step
    case Plain(plain) => StepKeepsMarks(s.net, plain);
    case Register(_, _) =>
      forall a ensures MarkHolds(SplitApply(s, step).net, a) { assert MarkHolds(s.net, a); }
    case MarkLate(address, remote) =>
      var s' := SplitApply(s, step).net;
      forall a | a != address ensures MarkHolds(s', a) { assert MarkHolds(s.net, a); }
      assert MarkHolds(s', address) <==> InTime(s, step) || (address, remote) !in s.marking;
  }

  /**
   With marking as a step of its own, the marks hold throughout a run exactly when no
   connection is closed, from end to end, before its address is marked.
   */
  lemma {:induction false} MarksHoldIff(steps: seq<SplitStep>)
    ensures var s := SplitNet(START, multiset{});
      MarksAlwaysHold(s, steps) <==> AlwaysInTime(s, steps)
    decreases |steps|
  {
    var s := SplitNet(START, multiset{});
    if steps != [] {
      var (init, last) := (steps[..|steps| - 1], steps[|steps| - 1]);
      MarksHoldIff(init);
      if MarksAlwaysHold(s, init) { LateMarkKeepsIff(SplitAfter(s, init), last); }
    }
  }

  /** The address is marked connected, but its connection is gone and nothing is left to say so. */
  predicate Stranded(s: Net, address: string, remote: Addr) {
    && address in s.desired && s.desired[address].resolved == Some(remote)
    && remote !in s.peers && remote !in s.closing && address !in s.pending
  }

  lemma SplitOnce(s: SplitNet, steps: seq<SplitStep>, step: SplitStep)
    ensures SplitAfter(s, steps + [step]) == SplitApply(SplitAfter(s, steps), step)
  {
    assert (steps + [step])[..|steps|] == steps;
  }

  /** What the five steps of the race make of a state. */
  ghost function Raced(s: SplitNet, address: string, remote: Addr): SplitNet {
    var s1 := SplitApply(SplitApply(s, Plain(Desire(address))), Register(address, remote));
    var s2 := SplitApply(SplitApply(s1, Plain(Remove(remote))), Plain(Unmark(remote)));
    SplitApply(s2, MarkLate(address, remote))
  }

  lemma RacedIsStranded(s: SplitNet, address: string, remote: Addr)
    requires s == SplitNet(START, multiset{})
    ensures Stranded(Raced(s, address, remote).net, address, remote)
  {
    var s1 := SplitApply(SplitApply(s, Plain(Desire(address))), Register(address, remote));
    assert s1.net.peers == {remote} && s1.net.closing == multiset{} && s1.marking == multiset{(address, remote)};
    var s2 := SplitApply(SplitApply(s1, Plain(Remove(remote))), Plain(Unmark(remote)));
    assert s2.net.peers == {} && s2.net.closing == multiset{} && s2.marking == s1.marking && s2.net.pending == [];
  }

  /** A connection that is closed before its address is marked strands the address. */
  lemma RaceStrands(address: string, remote: Addr) returns (steps: seq<SplitStep>)
    ensures steps == [Plain(Desire(address)), Register(address, remote), Plain(Remove(remote)),
                      Plain(Unmark(remote)), MarkLate(address, remote)]
    ensures Stranded(SplitAfter(SplitNet(START, multiset{}), steps).net, address, remote)
  {
    var s := SplitNet(START, multiset{});
    var (a, b, c, d, e) := (Plain(Desire(address)), Register(address, remote), Plain(Remove(remote)),
                            Plain(Unmark(remote)), MarkLate(address, remote));
    RacedIsStranded(s, address, remote);
    var one := [] + [a];
    var two := one + [b];
    var three := two + [c];
    var four := three + [d];
    SplitOnce(s, [], a);
    SplitOnce(s, one, b);
    SplitOnce(s, two, c);
    SplitOnce(s, three, d);
    SplitOnce(s, four, e);
    steps := four + [e];
  }

  /** Nobody asks for the address again, nothing is registered under its old remote, and the node stays up. */
  predicate Ignores(step: Step, address: string, remote: Addr) {
    match step
    case Connect(a, outcome) => a != address && outcome != Reached(remote)
    case Accept(r, _) => r != remote
    case Dial(outcome) => outcome != Reached(remote)
    case Remove(r) => r != remote
    case Shutdown => false
    case _ => true
  }

  lemma StrandedStays(s: Net, step: Step, address: string, remote: Addr)
    requires Stranded(s, address, remote) && Ignores(step, address, remote)
    ensures Stranded(Apply(s, step), address, remote)
  {
    if step.Tick? { assert address !in Unresolved(s.desired); }
  }

  /** A stranded address is dialled in no later round. */
  lemma {:induction false} StrandedIsNeverDialled(s: Net, steps: seq<Step>, address: string, remote: Addr)
    requires Stranded(s, address, remote)
    requires forall i :: 0 <= i < |steps| ==> Ignores(steps[i], address, remote)
    ensures Stranded(After(s, steps), address, remote) && address !in Dialled(s, steps)
    decreases |steps|
  {
    if steps != [] {
      var (init, last) := (steps[..|steps| - 1], steps[|steps| - 1]);
      StrandedIsNeverDialled(s, init, address, remote);
      StrandedStays(After(s, init), last, address, remote);
    }
  }

  // ------------------------------------------------------------------ the manager

  class Manager {
    var peers: set<Addr>
    var desired: Wishes
    var pending: seq<string>
    ghost var closing: multiset<Addr>

    ghost function State(): Net
      reads this
    {
      Net(peers, desired, closing, pending)
    }

    constructor ()
      ensures State() == START
    {
      peers, desired, pending, closing := {}, map[], [], multiset{};
    }

    method DesirePeer(address: string)
      modifies this
      ensures State() == Apply(old(State()), Desire(address))
    {
      if Trim(address) == "" {
        return;
      }
      if address !in desired {
        desired := desired[address := FRESH];
      }
    }

    method MarkResolved(address: string, resolved: Option<Addr>)
      modifies this
      ensures State() == old(State()).(desired := Marked(old(desired), address, resolved))
    {
      var entry := if address in desired then desired[address] else FRESH;
      entry := entry.(resolved := resolved);
      if resolved.Some? {
        entry := entry.(attempts := 0);
      }
      desired := desired[address := entry];
    }

    method NoteFailure(address: string)
      modifies this
      ensures State() == old(State()).(desired := Noted(old(desired), address))
    {
      if address in desired {
        var entry := desired[address];
        var attempts := if entry.attempts >= ATTEMPTS_MAX then ATTEMPTS_MAX else entry.attempts + 1;
        desired := desired[address := entry.(attempts := attempts)];
      }
    }

    /** What follows a dial: a connection is registered and its address marked, or a failure noted. */
    method Finish(address: string, outcome: Outcome)
      modifies this
      ensures State() == Ended(old(State()), address, outcome)
    {
      match outcome
      case Reached(remote) =>
        peers := peers + {remote};
        MarkResolved(address, Some(remote));
      case Failed(counted) =>
        if counted {
          NoteFailure(address);
        }
    }

    method ConnectTo(address: string, outcome: Outcome)
      modifies this
      ensures State() == Apply(old(State()), Connect(address, outcome))
    {
      DesirePeer(address);
      Finish(address, outcome);
    }

    method AcceptFrom(remote: Addr, limit: nat)
      modifies this
      ensures State() == Apply(old(State()), Accept(remote, limit))
    {
      if |peers| >= limit {
        return;
      }
      peers := peers + {remote};
    }

    method BeginRound() returns (order: seq<string>)
      requires pending == []
      modifies this
      ensures Lists(order, Unresolved(old(desired))) && State() == Apply(old(State()), Tick(order))
    {
      order := CollectPending(desired);
      pending := order;
    }

    method DialNext(outcome: Outcome)
      requires pending != []
      modifies this
      ensures State() == Apply(old(State()), Dial(outcome))
    {
      var address := pending[0];
      pending := pending[1..];
      Finish(address, outcome);
    }

    /** The two halves of a reader's end. */
    method LeaveRegistry(remote: Addr)
      modifies this
      ensures State() == Apply(old(State()), Remove(remote))
    {
      peers := peers - {remote};
      closing := closing + multiset{remote};
    }

    method ForgetRemote(remote: Addr)
      requires remote in closing
      modifies this
      ensures State() == Apply(old(State()), Unmark(remote))
    {
      desired := ClearRemote(desired, remote);
      closing := closing - multiset{remote};
    }

    method ShutDown()
      modifies this
      ensures State() == Apply(old(State()), Shutdown)
    {
      pending := [];
      peers := {};
      desired := map[];
    }
  }

  /** The addresses to dial, in whatever order the table yields them. */
  method CollectPending(desired: Wishes) returns (order: seq<string>)
    ensures Lists(order, Unresolved(desired))
  {
    order := [];
    var left := desired.Keys;
    while left != {}
      invariant left <= desired.Keys
      invariant Lists(order, Unresolved(desired) - left)
      decreases |left|
    {
      var address :| address in left;
      left := left - {address};
      if desired[address].resolved.None? {
        order := order + [address];
      }
    }
    assert Unresolved(desired) - left == Unresolved(desired);
  }

  method ClearRemote(desired: Wishes, remote: Addr) returns (cleared: Wishes)
    ensures cleared == Unmarked(desired, remote)
  {
    cleared := desired;
    var left := desired.Keys;
    while left != {}
      invariant left <= desired.Keys == cleared.Keys
      invariant forall a :: a in left ==> cleared[a] == desired[a]
      invariant forall a :: a in desired.Keys - left ==> cleared[a] == Cleared(desired[a], remote)
      decreases |left|
    {
      var address :| address in left;
      left := left - {address};
      if cleared[address].resolved == Some(remote) {
        cleared := cleared[address := cleared[address].(resolved := None)];
      }
    }
  }
}
