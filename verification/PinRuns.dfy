/** What the pin store keeps over every sequence of announcements, and across a restart. */
module PinRuns {
  import opened Wrappers
  import opened Text
  import opened Keys
  import opened Pins

  datatype Announcement = Announcement(nickname: string, publicKey: string, now: nat)

  /** Everything one run of the program is told, oldest first. */
  type History = seq<Announcement>

  ghost function Announce(s: Store, a: Announcement): (Store, PinOutcome) {
    Observe(s, a.nickname, a.publicKey, a.now)
  }

  ghost function After(s: Store, h: History): Store
    decreases |h|
  {
    if h == [] then s else Announce(After(s, h[..|h| - 1]), h[|h| - 1]).0
  }

  predicate UsableFor(a: Announcement, n: string) {
    Usable(a.nickname, a.publicKey) && NormalizeNickname(a.nickname) == n
  }

  function KeyOf(a: Announcement): string
    requires Usable(a.nickname, a.publicKey)
  {
    CanonicalKey(a.publicKey).value
  }

  // ------------------------------------------------------------- sound tables

  ghost predicate SoundPin(n: string, pin: Pin) {
    NormalizeNickname(n) == n && n != "" && CanonicalKey(pin.publicKey) == Some(pin.publicKey)
  }

  ghost predicate Sound(t: Table) {
    |t| <= PIN_CAPACITY && forall n {:trigger SoundPin(n, t[n])} :: n in t ==> SoundPin(n, t[n])
  }

  ghost predicate Unflagged(t: Table) {
    forall n :: n in t ==> !t[n].changed && !t[n].changeWritten
  }

  function Unflag(t: Table): Table {
    map n | n in t :: t[n].(changed := false, changeWritten := false)
  }

  lemma InsertIsSound(t: Table, entry: StoredPin)
    requires Sound(t) && Unflagged(t) && Accepts(t, entry)
    ensures Sound(Insert(t, entry)) && Unflagged(Insert(t, entry))
  {
    CanonicalKeyIsFixed(entry.publicKey);
    NormalNicknameIsFixed(entry.nickname);
    var n := NormalizeNickname(entry.nickname);
    var t' := Insert(t, entry);
    assert SoundPin(n, t'[n]);
    assert |t'| == if n in t then |t| else |t| + 1 by {
      assert t'.Keys == t.Keys + {n};
    }
  }

  /** Whatever a file holds, the restored table respects the bound and every pin is usable. */
  lemma {:induction false} RestoreIsSound(pins: seq<StoredPin>)
    ensures Sound(RestorePins(pins).0) && Unflagged(RestorePins(pins).0)
    decreases |pins|
  {
    if pins != [] {
      var init, last := pins[..|pins| - 1], pins[|pins| - 1];
      RestoreIsSound(init);
      var t := RestorePins(init).0;
      if Accepts(t, last) { InsertIsSound(t, last); }
    }
  }

  lemma LoadIsSound(file: PinFile)
    ensures Sound(Load(file).pins) && Unflagged(Load(file).pins)
    ensures Load(file).persists == 0 && Load(file).changed == 0 && Load(file).written == Load(file).pins
  {
    if file.Stored? { RestoreIsSound(file.pins); }
  }

  // ------------------------------------------------------------ write, then read

  function Only(t: Table, names: seq<string>): Table {
    map n | n in t && n in names :: t[n]
  }

  lemma SnapshotEntryFits(t: Table, names: seq<string>, n: string)
    requires Sound(t) && n in t && n !in names
    ensures var before := Unflag(Only(t, names));
      && Accepts(before, StoredPinOf(n, t[n]))
      && Insert(before, StoredPinOf(n, t[n])) == Unflag(Only(t, names + [n]))
  {
    var before := Unflag(Only(t, names));
    assert SoundPin(n, t[n]);
    assert before.Keys <= t.Keys - {n};
    SmallerTable(before, t, n);
  }

  /** The entries are those of the given names, which are distinct names of the table. */
  ghost predicate Lists(t: Table, names: seq<string>, entries: seq<StoredPin>) {
    && |names| == |entries|
    && (forall i :: 0 <= i < |names| ==> names[i] in t && entries[i] == StoredPinOf(names[i], t[names[i]]))
    && (forall i, j :: 0 <= i < j < |names| ==> names[i] != names[j])
  }

  lemma ListShortens(t: Table, names: seq<string>, entries: seq<StoredPin>)
    returns (init: seq<string>, n: string, list: seq<StoredPin>)
    requires Lists(t, names, entries) && names != []
    ensures names == init + [n] && n in t && n !in init
    ensures entries == list + [StoredPinOf(n, t[n])] && Lists(t, init, list)
  {
    var i := |names| - 1;
    init, n, list := names[..i], names[i], entries[..i];
    assert names == init + [n] && entries == list + [entries[i]];
  }

  ghost predicate ReadsBack(t: Table, names: seq<string>, entries: seq<StoredPin>) {
    RestorePins(entries) == (Unflag(Only(t, names)), 0)
  }

  lemma ReadsBackOneMore(t: Table, names: seq<string>, n: string, entries: seq<StoredPin>)
    requires Sound(t) && n in t && n !in names && ReadsBack(t, names, entries)
    ensures ReadsBack(t, names + [n], entries + [StoredPinOf(n, t[n])])
  {
    var entry := StoredPinOf(n, t[n]);
    SnapshotEntryFits(t, names, n);
    var all := entries + [entry];
    assert all[..|all| - 1] == entries && all[|all| - 1] == entry;
  }

  lemma {:induction false} ListReadsBack(t: Table, names: seq<string>, entries: seq<StoredPin>)
    requires Sound(t) && Lists(t, names, entries)
    ensures ReadsBack(t, names, entries)
    decreases |names|
  {
    if names == [] {
      assert Only(t, names) == map[];
    } else {
      var init, n, list := ListShortens(t, names, entries);
      ListReadsBack(t, init, list);
      ReadsBackOneMore(t, init, n, list);
    }
  }

  lemma SmallerTable(small: Table, t: Table, n: string)
    requires small.Keys <= t.Keys - {n} && n in t
    ensures |small| < |t|
  {
    SubsetSize(small.Keys, t.Keys - {n});
  }

  lemma {:induction false} SubsetSize<T>(a: set<T>, b: set<T>)
    requires a <= b
    ensures |a| <= |b|
    decreases |a|
  {
    if a != {} {
      var x :| x in a;
      SubsetSize(a - {x}, b - {x});
    }
  }

  /** Reading back what was written gives the table, with the flags of the run cleared. */
  lemma SnapshotReadsBack(t: Table)
    requires Sound(t)
    ensures RestorePins(Snapshot(t)) == (Unflag(t), 0)
  {
    var names := SortedNames(t.Keys);
    SortedNamesElements(t.Keys);
    ListReadsBack(t, names, Snapshot(t));
    assert Only(t, names) == t;
  }

  // -------------------------------------------------------------- the invariant

  /** The nicknames whose one write per run for a change has been spent. */
  ghost function Rewritten(t: Table): set<string> {
    set n | n in t && t[n].changeWritten
  }

  /** The table and the write budget of a run that restored `base`. */
  ghost predicate InBudget(s: Store, base: Table) {
    && Sound(s.pins) && base.Keys <= s.pins.Keys
    && s.persists == |s.pins| - |base| + |Rewritten(s.pins)|
  }

  /** A table that was written, or read, at an earlier point than another one. */
  ghost predicate Lags(written: Table, t: Table) {
    && written.Keys <= t.Keys
    && forall n :: n in written ==>
         && written[n].firstSeen == t[n].firstSeen
         && (written[n].publicKey != t[n].publicKey ==> t[n].changeWritten)
  }

  /** Loading the file would give the table it was last written from, or at first read as. */
  ghost predicate Reloads(s: Store) {
    s.hasFile && Sound(s.written) && Load(s.disk).pins == Unflag(s.written)
  }

  /** The file lags behind the table only for nicknames whose write is spent. */
  ghost predicate DiskLags(s: Store) {
    Reloads(s) && Lags(s.written, s.pins) && s.written.Keys == s.pins.Keys
  }

  lemma SetPinCounts(t: Table, n: string, pin: Pin)
    ensures |t[n := pin]| == |t| + (if n in t then 0 else 1)
  {
  }

  lemma SetPinRewrites(t: Table, n: string, pin: Pin)
    ensures Rewritten(t[n := pin]) == if pin.changeWritten then Rewritten(t) + {n} else Rewritten(t) - {n}
  {
    var t' := t[n := pin];
    forall m ensures m in Rewritten(t') <==> (if m == n then pin.changeWritten else m in Rewritten(t)) { }
  }

  lemma SetPinKeeps(t: Table, n: string, pin: Pin)
    requires Sound(t) && SoundPin(n, pin) && (n in t || |t| < PIN_CAPACITY)
    ensures Sound(t[n := pin])
  {
    SetPinCounts(t, n, pin);
    var t' := t[n := pin];
    forall m | m in t' ensures SoundPin(m, t'[m]) {
      if m == n { assert t'[m] == pin; } else { assert t'[m] == t[m] && SoundPin(m, t[m]); }
    }
  }

  lemma ChangeKeepsBudget(s: Store, base: Table, n: string, pin: Pin)
    requires InBudget(s, base) && SoundPin(n, pin) && pin.changeWritten && n in s.pins
    ensures var t := s.pins[n := pin];
      && Sound(t) && base.Keys <= t.Keys && |t| == |s.pins|
      && |Rewritten(t)| == |Rewritten(s.pins)| + (if s.pins[n].changeWritten then 0 else 1)
  {
    SetPinKeeps(s.pins, n, pin);
    SetPinCounts(s.pins, n, pin);
    SetPinRewrites(s.pins, n, pin);
    assert n in Rewritten(s.pins) <==> s.pins[n].changeWritten;
  }

  lemma NewKeepsBudget(s: Store, base: Table, n: string, pin: Pin)
    requires InBudget(s, base) && SoundPin(n, pin) && !pin.changeWritten && n !in s.pins && |s.pins| < PIN_CAPACITY
    ensures var t := s.pins[n := pin];
      Sound(t) && base.Keys <= t.Keys && |t| == |s.pins| + 1 && Rewritten(t) == Rewritten(s.pins)
  {
    SetPinKeeps(s.pins, n, pin);
    SetPinCounts(s.pins, n, pin);
    SetPinRewrites(s.pins, n, pin);
    assert n !in Rewritten(s.pins);
  }

  lemma RecordKeepsBudget(s: Store, base: Table, n: string, key: string, now: nat)
    requires InBudget(s, base) && SoundPin(n, Pin(key, now, false, false))
    ensures InBudget(Record(s, n, key, now).0, base)
  {
    if n in s.pins {
      var pin := Pin(key, s.pins[n].firstSeen, true, true);
      assert SoundPin(n, pin);
      ChangeKeepsBudget(s, base, n, pin);
    } else if |s.pins| < PIN_CAPACITY {
      NewKeepsBudget(s, base, n, Pin(key, now, false, false));
    }
  }

  lemma PersistReloads(s: Store)
    requires s.hasFile && Sound(s.pins)
    ensures Reloads(Persist(s)) && Lags(Persist(s).written, s.pins)
  {
    SnapshotReadsBack(s.pins);
  }

  lemma ChangeLags(s: Store, n: string, pin: Pin)
    requires Lags(s.written, s.pins) && n in s.pins && pin.changeWritten && pin.firstSeen == s.pins[n].firstSeen
    ensures Lags(s.written, s.pins[n := pin]) && s.pins[n := pin].Keys == s.pins.Keys
  {
  }

  lemma RecordKeepsDisk(s: Store, n: string, key: string, now: nat)
    requires DiskLags(s) && Sound(s.pins) && SoundPin(n, Pin(key, now, false, false))
    ensures DiskLags(Record(s, n, key, now).0)
  {
    if n in s.pins {
      var pin := Pin(key, s.pins[n].firstSeen, true, true);
      assert SoundPin(n, pin);
      SetPinKeeps(s.pins, n, pin);
      ChangeLags(s, n, pin);
      PersistReloads(s.(pins := s.pins[n := pin], changed := s.changed + 1));
    } else if |s.pins| < PIN_CAPACITY {
      var pin := Pin(key, now, false, false);
      SetPinKeeps(s.pins, n, pin);
      PersistReloads(s.(pins := s.pins[n := pin]));
    }
  }

  lemma NormalFormIsSound(a: Announcement)
    requires Usable(a.nickname, a.publicKey)
    ensures SoundPin(NormalizeNickname(a.nickname), Pin(KeyOf(a), a.now, false, false))
  {
    NormalNicknameIsFixed(a.nickname);
    CanonicalKeyIsFixed(a.publicKey);
  }

  /** A store that has just been opened on some file, or has none. */
  ghost predicate Opened(s: Store) {
    && Sound(s.pins) && Unflagged(s.pins)
    && s.persists == 0 && s.changed == 0 && s.written == s.pins
  }

  lemma {:induction false} RunKeepsBudget(s: Store, h: History)
    requires Opened(s)
    ensures InBudget(After(s, h), s.pins)
    decreases |h|
  {
    if h == [] {
      assert Rewritten(s.pins) == {};
    } else {
      var (init, a) := (h[..|h| - 1], h[|h| - 1]);
      RunKeepsBudget(s, init);
      if Usable(a.nickname, a.publicKey) {
        NormalFormIsSound(a);
        RecordKeepsBudget(After(s, init), s.pins, NormalizeNickname(a.nickname), KeyOf(a), a.now);
      }
    }
  }

  /**
   Whatever file was loaded and whatever is announced: the table never exceeds its bound,
   and the number of writes is the number of new nicknames plus the number of nicknames
   that changed, so a run writes at most twice the bound.
   */
  lemma WritesAreBounded(file: PinFile, h: History)
    ensures var s, s' := Load(file), After(Load(file), h);
      && |s'.pins| <= PIN_CAPACITY
      && s'.persists == |s'.pins| - |s.pins| + |Rewritten(s'.pins)|
      && s'.persists <= 2 * PIN_CAPACITY
  {
    LoadIsSound(file);
    RunKeepsBudget(Load(file), h);
    var t := After(Load(file), h).pins;
    SubsetSize(Rewritten(t), t.Keys);
  }

  lemma {:induction false} RunKeepsDisk(s: Store, h: History)
    requires Opened(s) && DiskLags(s)
    ensures DiskLags(After(s, h))
    decreases |h|
  {
    if h != [] {
      var (init, a) := (h[..|h| - 1], h[|h| - 1]);
      RunKeepsDisk(s, init);
      RunKeepsBudget(s, init);
      if Usable(a.nickname, a.publicKey) {
        NormalFormIsSound(a);
        RecordKeepsDisk(After(s, init), NormalizeNickname(a.nickname), KeyOf(a), a.now);
      }
    }
  }

  lemma LoadReloads(file: PinFile)
    ensures Opened(Load(file)) && DiskLags(Load(file))
  {
    LoadIsSound(file);
    assert Unflag(Load(file).pins) == Load(file).pins;
  }

  /** What the file holds after a run, whatever file the run started from. */
  lemma FileLagsBehindTable(file: PinFile, h: History)
    ensures DiskLags(After(Load(file), h))
  {
    LoadReloads(file);
    RunKeepsDisk(Load(file), h);
  }

  /** A file this build wrote, or none yet. */
  ghost predicate OwnFile(file: PinFile) {
    file == Absent || exists t: Table :: Sound(t) && file == Stored(PIN_VERSION, Snapshot(t))
  }

  lemma StepWrites(s: Store, a: Announcement)
    ensures var s' := Announce(s, a).0;
      s'.disk == s.disk || s'.disk == Stored(PIN_VERSION, Snapshot(s'.pins))
  {
  }

  /** A run leaves the file as it was, or as one this build wrote. */
  lemma {:induction false} RunWritesOwnFile(file: PinFile, h: History)
    ensures After(Load(file), h).disk == file || OwnFile(After(Load(file), h).disk)
    decreases |h|
  {
    if h != [] {
      RunWritesOwnFile(file, h[..|h| - 1]);
      StepWrites(After(Load(file), h[..|h| - 1]), h[|h| - 1]);
      LoadIsSound(file);
      RunKeepsBudget(Load(file), h);
      assert Sound(After(Load(file), h).pins);
    }
  }

  // ------------------------------------------------------------------- restart

  /** The key the file holds for a nickname. */
  function DiskKey(s: Store, n: string): string {
    if n in Load(s.disk).pins then Load(s.disk).pins[n].publicKey else ""
  }

  function TableKey(s: Store, n: string): string {
    if n in s.pins then s.pins[n].publicKey else ""
  }

  lemma JudgedByTheFile(s: Store, n: string, key: string, now: nat)
    requires DiskLags(s) && n in s.pins
    ensures Load(s.disk).pins.Keys == s.pins.Keys
    ensures Record(Load(s.disk), n, key, now).1
         == if key == DiskKey(s, n) then Known else Changed(DiskKey(s, n))
  {
    assert n in Unflag(s.written);
  }

  /**
   After a restart a remembered nickname is judged against the key in the file: the same
   key is known, any other is a change from it, and it never looks new.
   */
  lemma RestartJudgesByTheFile(file: PinFile, h: History, a: Announcement, n: string)
    requires UsableFor(a, n) && n in After(Load(file), h).pins
    ensures var s := After(Load(file), h);
      && Load(s.disk).pins.Keys == s.pins.Keys
      && Announce(Load(s.disk), a).1 == if KeyOf(a) == DiskKey(s, n) then Known else Changed(DiskKey(s, n))
  {
    FileLagsBehindTable(file, h);
    JudgedByTheFile(After(Load(file), h), n, KeyOf(a), a.now);
  }

  /**
   A key that differs from the one the last run ended with is reported after a restart
   unless it is the key in the file, and then the file lags behind the table.
   */
  lemma RestartMissesChangeIff(file: PinFile, h: History, a: Announcement, n: string)
    requires UsableFor(a, n) && n in After(Load(file), h).pins
    requires KeyOf(a) != TableKey(After(Load(file), h), n)
    ensures var s := After(Load(file), h);
      && (Announce(Load(s.disk), a).1 == Known <==> KeyOf(a) == DiskKey(s, n))
      && (Announce(Load(s.disk), a).1 == Known ==> s.pins[n].changeWritten)
  {
    RestartJudgesByTheFile(file, h, a, n);
    FileLagsBehindTable(file, h);
  }

  lemma AnnouncesKey(s: Store, n: string, k: Key, now: nat)
    requires NormalizeNickname(n) == n && n != ""
    ensures UsableFor(Announcement(n, PublicHex(k), now), n)
    ensures Announce(s, Announcement(n, PublicHex(k), now)) == Record(s, n, PublicHex(k), now)
  {
    PublicHexReadsBack(k);
  }

  lemma ThreeAnnouncements(s: Store, a1: Announcement, a2: Announcement, a3: Announcement)
    ensures After(s, [a1, a2, a3]) == Announce(Announce(Announce(s, a1).0, a2).0, a3).0
  {
    assert [a1, a2, a3][..2] == [a1, a2] && [a1, a2][..1] == [a1] && [a1][..0] == [];
    assert After(s, [a1]) == Announce(s, a1).0;
    assert After(s, [a1, a2]) == Announce(Announce(s, a1).0, a2).0;
  }

  /**
   Such a missed change is reachable: a nickname announces three keys in one run, and after
   a restart the second of them passes as known although the last run ended on the third.
   */
  lemma MissedChangeIsReachable(n: string, k1: Key, k2: Key, k3: Key)
    requires NormalizeNickname(n) == n && n != "" && k1 != k2 && k2 != k3
    ensures var s := After(Load(Absent), [Announcement(n, PublicHex(k1), 0),
                                          Announcement(n, PublicHex(k2), 1), Announcement(n, PublicHex(k3), 2)]);
      && TableKey(s, n) == PublicHex(k3)
      && Announce(Load(s.disk), Announcement(n, PublicHex(k2), 3)).1 == Known
  {
    var (a1, a2, a3) := (Announcement(n, PublicHex(k1), 0), Announcement(n, PublicHex(k2), 1),
                         Announcement(n, PublicHex(k3), 2));
    var h := [a1, a2, a3];
    var s0 := Load(Absent);
    HexDiffers(k1, k2);
    HexDiffers(k2, k3);
    ThreeAnnouncements(s0, a1, a2, a3);
    AnnouncesKey(s0, n, k1, 0);
    AnnouncesKey(Announce(s0, a1).0, n, k2, 1);
    AnnouncesKey(Announce(Announce(s0, a1).0, a2).0, n, k3, 2);
    var s := After(s0, h);
    AnnouncesKey(Load(s.disk), n, k2, 3);
    FileLagsBehindTable(Absent, h);
    JudgedByTheFile(s, n, PublicHex(k2), 3);
  }

  lemma HexDiffers(a: Key, b: Key)
    requires a != b
    ensures PublicHex(a) != PublicHex(b)
  {
    HexReadsBack(a);
    HexReadsBack(b);
  }
}
