/**
 Announcements from several connections at once. The table lock is released before the file
 is written, and only one task writes at a time, so table updates interleave with writes.
 */
module PinRaces {
  import opened Wrappers
  import opened Pins
  import opened PinRuns

  /**
   The store, the tasks that have still to take a snapshot, and the snapshot being written.
   In the store, `persists` counts the snapshots taken.
   */
  datatype Shared = Shared(store: Store, waiting: nat, writing: Option<Table>)

  datatype Event = Touches(a: Announcement) | TakesSnapshot | Publishes

  /** Whether an announcement asks for the file to be written. */
  predicate AsksForWrite(s: Store, n: string, key: string) {
    if n in s.pins then s.pins[n].publicKey != key && !s.pins[n].changeWritten else |s.pins| < PIN_CAPACITY
  }

  /** The part of an announcement that is done under the table lock. */
  function Touch(s: Store, n: string, key: string, now: nat): Store {
    if n in s.pins then
      if s.pins[n].publicKey == key then s
      else s.(pins := s.pins[n := Pin(key, s.pins[n].firstSeen, true, true)], changed := s.changed + 1)
    else if |s.pins| >= PIN_CAPACITY then s.(refused := s.refused + 1)
    else s.(pins := s.pins[n := Pin(key, now, false, false)])
  }

  ghost function Step(x: Shared, ev: Event): Shared {
    match ev
    case Touches(a) =>
      if !Usable(a.nickname, a.publicKey) then x.(store := x.store.(refused := x.store.refused + 1))
      else
        var n := NormalizeNickname(a.nickname);
        Shared(Touch(x.store, n, KeyOf(a), a.now),
               x.waiting + (if AsksForWrite(x.store, n, KeyOf(a)) then 1 else 0), x.writing)
    case TakesSnapshot =>
      if x.waiting == 0 || x.writing.Some? then x
      else Shared(x.store.(persists := x.store.persists + 1), x.waiting - 1, Some(x.store.pins))
    case Publishes =>
      if x.writing.None? then x
      else
        var t := x.writing.value;
        x.(store := x.store.(disk := Stored(PIN_VERSION, Snapshot(t)), written := t), writing := None)
  }

  ghost function RaceAfter(x: Shared, run: seq<Event>): Shared
    decreases |run|
  {
    if run == [] then x else Step(RaceAfter(x, run[..|run| - 1]), run[|run| - 1])
  }

  function Begun(file: PinFile): Shared {
    Shared(Load(file), 0, None)
  }

  /** An announcement that nothing interrupts is its table part and then, if asked for, the write. */
  lemma WholeAnnouncementIsASplitRun(x: Shared, a: Announcement)
    requires x.waiting == 0 && x.writing == None && x.store.hasFile
    ensures var touched := Step(x, Touches(a));
      (if touched.waiting == 0 then touched.store else Step(Step(touched, TakesSnapshot), Publishes).store)
      == Announce(x.store, a).0
  {
  }

  // ------------------------------------------------------------- the invariant

  /** The table as the newest snapshot saw it. */
  function Latest(x: Shared): Table {
    if x.writing.Some? then x.writing.value else x.store.written
  }

  /** The newest snapshot misses something only while a task waits to take another. */
  ghost predicate SnapshotLags(x: Shared) {
    && Sound(x.store.pins) && Sound(Latest(x)) && Lags(Latest(x), x.store.pins)
    && (x.waiting == 0 ==> Latest(x).Keys == x.store.pins.Keys)
  }

  /** Writes done, under way and asked for are the new nicknames and those that changed. */
  ghost predicate WritesCounted(x: Shared, base: Table) {
    && base.Keys <= x.store.pins.Keys
    && x.store.persists + x.waiting == |x.store.pins| - |base| + |Rewritten(x.store.pins)|
  }

  lemma TouchLags(s: Store, n: string, key: string, now: nat, latest: Table)
    requires Sound(s.pins) && SoundPin(n, Pin(key, now, false, false)) && Lags(latest, s.pins)
    ensures var s' := Touch(s, n, key, now);
      && Sound(s'.pins) && Lags(latest, s'.pins)
      && (!AsksForWrite(s, n, key) ==> s'.pins.Keys == s.pins.Keys)
  {
    if n in s.pins {
      var pin := Pin(key, s.pins[n].firstSeen, true, true);
      assert SoundPin(n, pin);
      SetPinKeeps(s.pins, n, pin);
    } else if |s.pins| < PIN_CAPACITY {
      SetPinKeeps(s.pins, n, Pin(key, now, false, false));
    }
  }

  lemma TouchCounts(s: Store, n: string, key: string, now: nat)
    requires Sound(s.pins)
    ensures var s' := Touch(s, n, key, now);
      && s.pins.Keys <= s'.pins.Keys && s'.persists == s.persists
      && |s'.pins| + |Rewritten(s'.pins)|
         == |s.pins| + |Rewritten(s.pins)| + (if AsksForWrite(s, n, key) then 1 else 0)
  {
    if n in s.pins {
      var pin := Pin(key, s.pins[n].firstSeen, true, true);
      SetPinCounts(s.pins, n, pin);
      SetPinRewrites(s.pins, n, pin);
      assert n in Rewritten(s.pins) <==> s.pins[n].changeWritten;
    } else {
      var pin := Pin(key, now, false, false);
      SetPinCounts(s.pins, n, pin);
      SetPinRewrites(s.pins, n, pin);
      assert n !in Rewritten(s.pins);
    }
  }

  lemma PublishReloads(x: Shared)
    requires x.store.hasFile && x.writing.Some? && Sound(x.writing.value)
    ensures Reloads(Step(x, Publishes).store)
  {
    SnapshotReadsBack(x.writing.value);
  }

  ghost predicate Tidy(x: Shared, base: Table) {
    Reloads(x.store) && SnapshotLags(x) && WritesCounted(x, base)
  }

  lemma TouchStaysTidy(x: Shared, base: Table, a: Announcement)
    requires Tidy(x, base)
    ensures Tidy(Step(x, Touches(a)), base)
  {
    if Usable(a.nickname, a.publicKey) {
      NormalFormIsSound(a);
      TouchLags(x.store, NormalizeNickname(a.nickname), KeyOf(a), a.now, Latest(x));
      TouchCounts(x.store, NormalizeNickname(a.nickname), KeyOf(a), a.now);
    }
  }

  lemma StepStaysTidy(x: Shared, base: Table, ev: Event)
    requires Tidy(x, base)
    ensures Tidy(Step(x, ev), base)
  {
    match ev
    case Touches(a) => TouchStaysTidy(x, base, a);
    case TakesSnapshot =>
    case Publishes => if x.writing.Some? { PublishReloads(x); }
  }

  lemma {:induction false} RaceStaysTidy(file: PinFile, run: seq<Event>)
    ensures Tidy(RaceAfter(Begun(file), run), Load(file).pins)
    decreases |run|
  {
    if run == [] {
      LoadReloads(file);
      assert Rewritten(Load(file).pins) == {};
    } else {
      RaceStaysTidy(file, run[..|run| - 1]);
      StepStaysTidy(RaceAfter(Begun(file), run[..|run| - 1]), Load(file).pins, run[|run| - 1]);
    }
  }

  /**
   However announcements and writes interleave, whatever file was loaded: whenever no write
   is asked for or under way, the file lags behind the table only for nicknames whose write
   is spent, and the writes taken are the new nicknames and those that changed.
   */
  lemma FileLagsWhenIdle(file: PinFile, run: seq<Event>)
    ensures var x := RaceAfter(Begun(file), run);
      && |x.store.pins| <= PIN_CAPACITY && x.store.persists + x.waiting <= 2 * PIN_CAPACITY
      && (x.waiting == 0 && x.writing == None ==>
            DiskLags(x.store)
            && x.store.persists == |x.store.pins| - |Load(file).pins| + |Rewritten(x.store.pins)|)
  {
    RaceStaysTidy(file, run);
    var x := RaceAfter(Begun(file), run);
    SubsetSize(Rewritten(x.store.pins), x.store.pins.Keys);
  }
}
