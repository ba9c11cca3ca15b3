/** The pin store as a function of what was announced: which keys, which outcomes, how many changes. */
module PinHistory {
  import opened Wrappers
  import opened Pins
  import opened PinRuns

  /** The last key usably announced for a nickname, or the one it was restored with. */
  function LastKey(h: History, n: string, base: Table): Option<string>
    decreases |h|
  {
    if h == [] then (if n in base then Some(base[n].publicKey) else None)
    else
      var a := h[|h| - 1];
      if UsableFor(a, n) then Some(KeyOf(a)) else LastKey(h[..|h| - 1], n, base)
  }

  /** Whether the newest announcement names another key than the one before it did. */
  predicate Differs(h: History, base: Table, names: set<string>)
    requires h != []
  {
    var a := h[|h| - 1];
    Usable(a.nickname, a.publicKey)
    && var n := NormalizeNickname(a.nickname);
       var last := LastKey(h[..|h| - 1], n, base);
       n in names && last.Some? && last.value != KeyOf(a)
  }

  /** How many announcements for the given nicknames differ from the one just before. */
  function Changes(h: History, base: Table, names: set<string>): nat
    decreases |h|
  {
    if h == [] then 0
    else Changes(h[..|h| - 1], base, names) + (if Differs(h, base, names) then 1 else 0)
  }

  ghost function FirstSightings(s: Store, h: History, n: string): nat
    decreases |h|
  {
    if h == [] then 0
    else
      var init, a := h[..|h| - 1], h[|h| - 1];
      FirstSightings(s, init, n)
      + (if UsableFor(a, n) && Announce(After(s, init), a).1 == FirstSeen then 1 else 0)
  }

  /** A nickname that was never usably announced adds nothing to the count of changes. */
  lemma {:induction false} UnseenAddsNothing(h: History, base: Table, names: set<string>, n: string)
    requires LastKey(h, n, base) == None
    ensures Changes(h, base, names + {n}) == Changes(h, base, names)
    ensures Changes(h, base, {n}) == 0
    decreases |h|
  {
    if h != [] {
      UnseenAddsNothing(h[..|h| - 1], base, names, n);
    }
  }

  /** The store after a run says of each nickname what the history says. */
  ghost predicate Refines(s0: Store, h: History) {
    var s := After(s0, h);
    && (forall n :: n in s.pins ==> Explains(s0, h, n))
    && (forall n :: n !in s.pins ==> n !in s0.pins && FirstSightings(s0, h, n) == 0)
    && (|s.pins| < PIN_CAPACITY ==> forall n :: n !in s.pins ==> LastKey(h, n, s0.pins) == None)
    && s.changed == Changes(h, s0.pins, s.pins.Keys)
  }

  ghost predicate Explains(s0: Store, h: History, n: string) {
    var s := After(s0, h);
    && n in s.pins
    && LastKey(h, n, s0.pins) == Some(s.pins[n].publicKey)
    && (s.pins[n].changed <==> Changes(h, s0.pins, {n}) > 0)
    && FirstSightings(s0, h, n) == (if n in s0.pins then 0 else 1)
  }

  /** What one more announcement adds to the history of a nickname it does not name. */
  lemma OthersUnmoved(s0: Store, h: History, a: Announcement, n: string)
    requires !UsableFor(a, n)
    ensures LastKey(h + [a], n, s0.pins) == LastKey(h, n, s0.pins)
    ensures Changes(h + [a], s0.pins, {n}) == Changes(h, s0.pins, {n})
    ensures FirstSightings(s0, h + [a], n) == FirstSightings(s0, h, n)
  {
    LastStep(s0, h, a);
  }

  lemma LastStep(s0: Store, h: History, a: Announcement)
    ensures (h + [a])[..|h + [a]| - 1] == h && (h + [a])[|h + [a]| - 1] == a
    ensures After(s0, h + [a]) == Announce(After(s0, h), a).0
  {
    assert (h + [a])[..|h|] == h;
  }

  lemma UnusableKeeps(s0: Store, h: History, a: Announcement)
    requires Refines(s0, h) && !Usable(a.nickname, a.publicKey)
    ensures Refines(s0, h + [a])
  {
    LastStep(s0, h, a);
    forall n ensures !UsableFor(a, n) { }
    forall n ensures LastKey(h + [a], n, s0.pins) == LastKey(h, n, s0.pins)
                  && Changes(h + [a], s0.pins, {n}) == Changes(h, s0.pins, {n})
                  && FirstSightings(s0, h + [a], n) == FirstSightings(s0, h, n)
    {
      OthersUnmoved(s0, h, a, n);
    }
    forall n | n in After(s0, h).pins ensures Explains(s0, h + [a], n) { assert Explains(s0, h, n); }
  }

  /** The nicknames other than the one announced are explained as before. */
  lemma OthersExplained(s0: Store, h: History, a: Announcement, m: string, n: string)
    requires UsableFor(a, m) && n != m
    requires n in After(s0, h).pins ==> Explains(s0, h, n)
    ensures n in After(s0, h).pins <==> n in After(s0, h + [a]).pins
    ensures n in After(s0, h + [a]).pins ==> Explains(s0, h + [a], n)
  {
    NamedStep(s0, h, a, m);
    RecordTouchesOnly(After(s0, h), m, KeyOf(a), a.now, n);
    OthersUnmoved(s0, h, a, n);
  }

  lemma RecordTouchesOnly(s: Store, m: string, key: string, now: nat, n: string)
    requires n != m
    ensures n in s.pins <==> n in Record(s, m, key, now).0.pins
    ensures n in s.pins ==> Record(s, m, key, now).0.pins[n] == s.pins[n]
  {
  }

  /** Whether a key is a change from the last one of a nickname. */
  predicate Moves(last: Option<string>, key: string) {
    last.Some? && last.value != key
  }

  /** What one more usable announcement adds to the history of the nickname it names. */
  lemma NamedStep(s0: Store, h: History, a: Announcement, m: string)
    requires UsableFor(a, m)
    ensures After(s0, h + [a]) == Record(After(s0, h), m, KeyOf(a), a.now).0
    ensures LastKey(h + [a], m, s0.pins) == Some(KeyOf(a))
    ensures FirstSightings(s0, h + [a], m)
         == FirstSightings(s0, h, m) + (if Record(After(s0, h), m, KeyOf(a), a.now).1 == FirstSeen then 1 else 0)
  {
    LastStep(s0, h, a);
  }

  lemma ChangesStep(s0: Store, h: History, a: Announcement, m: string, names: set<string>)
    requires UsableFor(a, m)
    ensures Changes(h + [a], s0.pins, names) == Changes(h, s0.pins, names)
         + (if m in names && Moves(LastKey(h, m, s0.pins), KeyOf(a)) then 1 else 0)
  {
    LastStep(s0, h, a);
  }

  lemma RememberedExplained(s0: Store, h: History, a: Announcement, m: string)
    requires UsableFor(a, m) && m in After(s0, h).pins && Explains(s0, h, m)
    ensures Explains(s0, h + [a], m)
  {
    NamedStep(s0, h, a, m);
    ChangesStep(s0, h, a, m, {m});
  }

  lemma NewExplained(s0: Store, h: History, a: Announcement, m: string)
    requires UsableFor(a, m) && m !in After(s0, h).pins && |After(s0, h).pins| < PIN_CAPACITY
    requires m !in s0.pins && FirstSightings(s0, h, m) == 0 && LastKey(h, m, s0.pins) == None
    ensures Explains(s0, h + [a], m)
  {
    NamedStep(s0, h, a, m);
    ChangesStep(s0, h, a, m, {m});
    UnseenAddsNothing(h, s0.pins, {}, m);
  }

  lemma RecordCounts(s: Store, m: string, key: string, now: nat)
    ensures var s' := Record(s, m, key, now).0;
      && s'.pins.Keys == (if m in s.pins || |s.pins| >= PIN_CAPACITY then s.pins.Keys else s.pins.Keys + {m})
      && s'.changed == s.changed + (if m in s.pins && s.pins[m].publicKey != key then 1 else 0)
  {
    if m in s.pins { assert s.pins.Keys + {m} == s.pins.Keys; }
  }

  /** An announcement moves the counter exactly when it differs from the one before. */
  lemma CounterFollows(s0: Store, h: History, a: Announcement, m: string)
    requires Refines(s0, h) && UsableFor(a, m)
    ensures var s' := After(s0, h + [a]); s'.changed == Changes(h + [a], s0.pins, s'.pins.Keys)
  {
    var s := After(s0, h);
    NamedStep(s0, h, a, m);
    RecordCounts(s, m, KeyOf(a), a.now);
    var names := After(s0, h + [a]).pins.Keys;
    ChangesStep(s0, h, a, m, names);
    LastKeyOfNamed(s0, h, m);
    if m !in s.pins && |s.pins| < PIN_CAPACITY {
      UnseenAddsNothing(h, s0.pins, s.pins.Keys, m);
    }
  }

  lemma LastKeyOfNamed(s0: Store, h: History, m: string)
    requires Refines(s0, h)
    ensures var s := After(s0, h);
      && (m in s.pins ==> LastKey(h, m, s0.pins) == Some(s.pins[m].publicKey))
      && (m !in s.pins && |s.pins| < PIN_CAPACITY ==> LastKey(h, m, s0.pins) == None)
      && s.changed == Changes(h, s0.pins, s.pins.Keys)
  {
    if m in After(s0, h).pins { assert Explains(s0, h, m); }
  }

  lemma TableExplained(s0: Store, h: History, a: Announcement, m: string, n: string)
    requires Refines(s0, h) && UsableFor(a, m) && n in After(s0, h + [a]).pins
    ensures Explains(s0, h + [a], n)
  {
    if n != m {
      assert n in After(s0, h).pins ==> Explains(s0, h, n);
      OthersExplained(s0, h, a, m, n);
    } else {
      NamedStep(s0, h, a, m);
      if m in After(s0, h).pins {
        assert Explains(s0, h, m);
        RememberedExplained(s0, h, a, m);
      } else {
        NewExplained(s0, h, a, m);
      }
    }
  }

  lemma TableGrows(s: Store, m: string, key: string, now: nat)
    ensures var s' := Record(s, m, key, now).0;
      && |s.pins| <= |s'.pins|
      && (m !in s'.pins ==> m !in s.pins && |s'.pins| >= PIN_CAPACITY && Record(s, m, key, now).1 == Refused)
  {
    SubsetSize(s.pins.Keys, Record(s, m, key, now).0.pins.Keys);
  }

  lemma MissingExplained(s0: Store, h: History, a: Announcement, m: string, n: string)
    requires Refines(s0, h) && UsableFor(a, m) && n !in After(s0, h + [a]).pins
    ensures n !in s0.pins && FirstSightings(s0, h + [a], n) == 0
    ensures |After(s0, h + [a]).pins| < PIN_CAPACITY ==> LastKey(h + [a], n, s0.pins) == None
  {
    NamedStep(s0, h, a, m);
    TableGrows(After(s0, h), m, KeyOf(a), a.now);
    if n != m {
      RecordTouchesOnly(After(s0, h), m, KeyOf(a), a.now, n);
      OthersUnmoved(s0, h, a, n);
    }
  }

  lemma UsableKeeps(s0: Store, h: History, a: Announcement, m: string)
    requires Refines(s0, h) && UsableFor(a, m)
    ensures Refines(s0, h + [a])
  {
    var s' := After(s0, h + [a]);
    CounterFollows(s0, h, a, m);
    forall n | n in s'.pins ensures Explains(s0, h + [a], n) {
      TableExplained(s0, h, a, m, n);
    }
    forall n | n !in s'.pins
      ensures n !in s0.pins && FirstSightings(s0, h + [a], n) == 0
      ensures |s'.pins| < PIN_CAPACITY ==> LastKey(h + [a], n, s0.pins) == None
    {
      MissingExplained(s0, h, a, m, n);
    }
  }

  /**
   In every run, of every nickname in the table: its pin is the last key usably announced
   for it, or else the restored one. It was first seen exactly once unless it was restored.
   Its flag is set exactly when some announcement differed from the one before. The change
   counter is the number of such announcements.
   */
  lemma {:induction false} StoreRefinesHistory(s0: Store, h: History)
    requires Opened(s0)
    ensures Refines(s0, h)
    decreases |h|
  {
    if h == [] {
      forall n | n in s0.pins ensures Explains(s0, [], n) { }
    } else {
      var init, a := h[..|h| - 1], h[|h| - 1];
      StoreRefinesHistory(s0, init);
      assert h == init + [a];
      if Usable(a.nickname, a.publicKey) {
        UsableKeeps(s0, init, a, NormalizeNickname(a.nickname));
      } else {
        UnusableKeeps(s0, init, a);
      }
    }
  }

  /** How a key is judged against the last one of a remembered nickname. */
  function Verdict(last: Option<string>, key: string): PinOutcome {
    match last
    case None => FirstSeen
    case Some(previous) => if previous == key then Known else Changed(previous)
  }

  /**
   What an announcement is told follows from the history alone while the table has room:
   a nickname is judged against its last key, and one without a key is new.
   */
  lemma OutcomeFollowsHistory(s0: Store, h: History, a: Announcement, n: string)
    requires Opened(s0) && UsableFor(a, n)
    ensures var s := After(s0, h);
      Announce(s, a).1 == if n in s.pins || |s.pins| < PIN_CAPACITY then Verdict(LastKey(h, n, s0.pins), KeyOf(a))
                          else Refused
  {
    StoreRefinesHistory(s0, h);
    if n in After(s0, h).pins { assert Explains(s0, h, n); }
  }

  ghost function Refusals(s: Store, h: History): nat
    decreases |h|
  {
    if h == [] then 0
    else
      var init := h[..|h| - 1];
      Refusals(s, init) + (if Announce(After(s, init), h[|h| - 1]).1 == Refused then 1 else 0)
  }

  lemma RefusalIsCounted(s: Store, a: Announcement)
    ensures Announce(s, a).0.refused == s.refused + (if Announce(s, a).1 == Refused then 1 else 0)
    ensures Announce(s, a).1 == Refused ==> Announce(s, a).0.pins == s.pins
  {
  }

  /** The refusal counter is the entries the file lost plus the announcements that were refused. */
  lemma {:induction false} RefusalsAreCounted(s: Store, h: History)
    ensures After(s, h).refused == s.refused + Refusals(s, h)
    decreases |h|
  {
    if h != [] {
      RefusalsAreCounted(s, h[..|h| - 1]);
      RefusalIsCounted(After(s, h[..|h| - 1]), h[|h| - 1]);
    }
  }
}
