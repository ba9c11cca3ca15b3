/**
 Trust on first use: the public key each nickname announced, the file that remembers it
 with a deliberate lag, and the counters that make a change visible.
 */
module Pins {
  import opened Wrappers
  import opened Text
  import opened Keys

  const PIN_VERSION: nat := 1
  const PIN_CAPACITY: nat := 1024

  datatype Pin = Pin(publicKey: string, firstSeen: nat, changed: bool, changeWritten: bool)

  type Table = map<string, Pin>

  datatype StoredPin = StoredPin(nickname: string, publicKey: string, firstSeen: nat)

  /** The pin file as a typed value. */
  datatype PinFile = Absent | Unreadable | Stored(version: nat, pins: seq<StoredPin>)

  datatype PinOutcome = FirstSeen | Known | Changed(previous: string) | Refused

  /**
   The store. `persists` and `written` are history: how often the file was replaced in this
   run, and the table it was last replaced with (at first, the table it was read as).
   */
  datatype Store = Store(
    pins: Table,
    changed: nat,
    refused: nat,
    disk: PinFile,
    hasFile: bool,
    persists: nat,
    written: Table)

  function NormalizeNickname(s: string): string {
    ToAsciiLower(Trim(s))
  }

  /** The uppercase form of a usable announcement. */
  function CanonicalKey(s: string): Option<string> {
    var k := PublicKeyFromHex(s);
    if k.Some? then Some(PublicHex(k.value)) else None
  }

  lemma CanonicalKeyIsFixed(s: string)
    requires CanonicalKey(s).Some?
    ensures CanonicalKey(CanonicalKey(s).value) == CanonicalKey(s)
  {
    PublicHexReadsBack(PublicKeyFromHex(s).value);
  }

  lemma NormalNicknameIsFixed(s: string)
    ensures NormalizeNickname(NormalizeNickname(s)) == NormalizeNickname(s)
  {
    LowerTrim(s);
    TrimIdempotent(ToAsciiLower(s));
    var t := NormalizeNickname(s);
    assert Trim(t) == t;
    assert forall i :: 0 <= i < |s| ==> LowerChar(LowerChar(s[i])) == LowerChar(s[i]);
    assert ToAsciiLower(t) == t;
  }

  /** Two spellings share a pin exactly when they differ in nothing but case and the space around them. */
  lemma SameNicknameIff(a: string, b: string)
    ensures NormalizeNickname(a) == NormalizeNickname(b) <==> SameName(Trim(a), Trim(b))
  {
    LowerIsSameNameIff(Trim(a), Trim(b));
  }

  // ----------------------------------------------------- names in sorted order

  ghost predicate IsLeast(least: string, names: set<string>) {
    least in names && forall n :: n in names ==> StringLe(least, n)
  }

  lemma {:induction false} LeastExists(names: set<string>)
    requires names != {}
    ensures exists least :: IsLeast(least, names)
    decreases |names|
  {
    var n :| n in names;
    StringLeTotal(n, n);
    if names == {n} {
      assert IsLeast(n, names);
    } else {
      LeastExists(names - {n});
      var m :| IsLeast(m, names - {n});
      StringLeTotal(m, n);
      var least := if StringLe(m, n) then m else n;
      forall k | k in names ensures StringLe(least, k) {
        if k != n && least == n { StringLeTransitive(n, m, k); }
      }
      assert IsLeast(least, names);
    }
  }

  /** The names of a set in ascending order. */
  ghost function SortedNames(names: set<string>): seq<string>
    decreases |names|
  {
    if names == {} then []
    else
      LeastExists(names);
      var least :| IsLeast(least, names);
      [least] + SortedNames(names - {least})
  }

  lemma SortedNamesStep(names: set<string>, least: string)
    requires IsLeast(least, names)
    ensures SortedNames(names) == [least] + SortedNames(names - {least})
  {
    LeastExists(names);
    var m :| IsLeast(m, names) && SortedNames(names) == [m] + SortedNames(names - {m});
    StringLeAntisymmetric(m, least);
  }

  lemma {:induction false} SortedNamesElements(names: set<string>)
    ensures |SortedNames(names)| == |names|
    ensures forall i :: 0 <= i < |SortedNames(names)| ==> SortedNames(names)[i] in names
    ensures forall i, j :: 0 <= i < j < |SortedNames(names)| ==> SortedNames(names)[i] != SortedNames(names)[j]
    ensures forall n :: n in names ==> n in SortedNames(names)
    decreases |names|
  {
    if names != {} {
      LeastExists(names);
      var least :| IsLeast(least, names);
      SortedNamesStep(names, least);
      SortedNamesElements(names - {least});
    }
  }

  method Least(names: set<string>) returns (least: string)
    requires names != {}
    ensures IsLeast(least, names)
  {
    least :| least in names;
    var pending := names - {least};
    StringLeTotal(least, least);
    while pending != {}
      invariant pending <= names && least in names && least !in pending
      invariant forall n :: n in names - pending ==> StringLe(least, n)
      decreases |pending|
    {
      var n :| n in pending;
      StringLeTotal(least, n);
      StringLeTotal(n, n);
      if !StringLe(least, n) {
        forall k | k in names - pending ensures StringLe(n, k) {
          StringLeTransitive(n, least, k);
        }
        least := n;
      }
      pending := pending - {n};
    }
  }

  method SortNames(names: set<string>) returns (sorted: seq<string>)
    ensures sorted == SortedNames(names)
  {
    sorted := [];
    var pending := names;
    while pending != {}
      invariant sorted + SortedNames(pending) == SortedNames(names)
      decreases |pending|
    {
      var least := Least(pending);
      SortedNamesStep(pending, least);
      sorted := sorted + [least];
      pending := pending - {least};
    }
  }

  // --------------------------------------------------------- the file's contents

  function StoredPinOf(nickname: string, pin: Pin): StoredPin {
    StoredPin(nickname, pin.publicKey, pin.firstSeen)
  }

  /** The table in the order it is written, sorted by nickname. */
  ghost function Snapshot(t: Table): (pins: seq<StoredPin>)
    ensures |pins| == |SortedNames(t.Keys)|
    ensures forall i :: 0 <= i < |pins| ==>
      SortedNames(t.Keys)[i] in t
      && pins[i] == StoredPinOf(SortedNames(t.Keys)[i], t[SortedNames(t.Keys)[i]])
  {
    SortedNamesElements(t.Keys);
    var names := SortedNames(t.Keys);
    seq(|names|, i requires 0 <= i < |names| => StoredPinOf(names[i], t[names[i]]))
  }

  /** Whether an entry read from a file is usable and fits. */
  predicate Accepts(t: Table, entry: StoredPin) {
    var n := NormalizeNickname(entry.nickname);
    CanonicalKey(entry.publicKey).Some? && n != "" && (|t| < PIN_CAPACITY || n in t)
  }

  function Insert(t: Table, entry: StoredPin): Table
    requires Accepts(t, entry)
  {
    t[NormalizeNickname(entry.nickname) := Pin(CanonicalKey(entry.publicKey).value, entry.firstSeen, false, false)]
  }

  /** Reading the entries of a file back: unusable and excess ones are left out and counted. */
  function RestorePins(pins: seq<StoredPin>): (Table, nat)
    decreases |pins|
  {
    if pins == [] then (map[], 0)
    else
      var (t, dropped) := RestorePins(pins[..|pins| - 1]);
      var last := pins[|pins| - 1];
      if Accepts(t, last) then (Insert(t, last), dropped) else (t, dropped + 1)
  }

  method ReadEntries(entries: seq<StoredPin>) returns (table: Table, dropped: nat)
    ensures (table, dropped) == RestorePins(entries)
  {
    table, dropped := map[], 0;
    for i := 0 to |entries|
      invariant (table, dropped) == RestorePins(entries[..i])
    {
      assert entries[..i + 1][..i] == entries[..i];
      if Accepts(table, entries[i]) {
        table := Insert(table, entries[i]);
      } else {
        dropped := dropped + 1;
      }
    }
    assert entries[..|entries|] == entries;
  }

  function Empty(disk: PinFile, hasFile: bool): Store {
    Store(map[], 0, 0, disk, hasFile, 0, map[])
  }

  /** A store opened on a file. */
  function Load(disk: PinFile): Store {
    if disk.Stored? && disk.version == PIN_VERSION then
      var (pins, dropped) := RestorePins(disk.pins);
      Store(pins, 0, dropped, disk, true, 0, pins)
    else Empty(disk, true)
  }

  ghost function Persist(s: Store): Store {
    s.(disk := if s.hasFile then Stored(PIN_VERSION, Snapshot(s.pins)) else s.disk,
       persists := s.persists + 1, written := s.pins)
  }

  /** A usable announcement, already in normal form. */
  ghost function Record(s: Store, n: string, key: string, now: nat): (Store, PinOutcome) {
    if n in s.pins then
      var pin := s.pins[n];
      if pin.publicKey == key then (s, Known)
      else
        var moved := s.(pins := s.pins[n := Pin(key, pin.firstSeen, true, true)], changed := s.changed + 1);
        (if pin.changeWritten then moved else Persist(moved), Changed(pin.publicKey))
    else if |s.pins| >= PIN_CAPACITY then (s.(refused := s.refused + 1), Refused)
    else (Persist(s.(pins := s.pins[n := Pin(key, now, false, false)])), FirstSeen)
  }

  predicate Usable(nickname: string, publicKey: string) {
    NormalizeNickname(nickname) != "" && CanonicalKey(publicKey).Some?
  }

  ghost function Observe(s: Store, nickname: string, publicKey: string, now: nat): (Store, PinOutcome) {
    if !Usable(nickname, publicKey) then (s.(refused := s.refused + 1), Refused)
    else Record(s, NormalizeNickname(nickname), CanonicalKey(publicKey).value, now)
  }

  method CollectPins(t: Table, names: seq<string>) returns (entries: seq<StoredPin>)
    requires forall i :: 0 <= i < |names| ==> names[i] in t
    ensures |entries| == |names|
    ensures forall i :: 0 <= i < |names| ==> entries[i] == StoredPinOf(names[i], t[names[i]])
  {
    entries := [];
    for i := 0 to |names|
      invariant |entries| == i
      invariant forall j :: 0 <= j < i ==> entries[j] == StoredPinOf(names[j], t[names[j]])
    {
      entries := entries + [StoredPinOf(names[i], t[names[i]])];
    }
  }

  /** The store as the transport shares it. */
  class PinStore {
    const hasFile: bool
    var pins: Table
    var changed: nat
    var refused: nat
    var disk: PinFile
    ghost var persists: nat
    ghost var written: Table

    ghost function State(): Store
      reads this
    {
      Store(pins, changed, refused, disk, hasFile, persists, written)
    }

    /** A store that remembers for this process only. */
    constructor Volatile()
      ensures State() == Empty(Absent, false)
    {
      hasFile, pins, changed, refused, disk := false, map[], 0, 0, Absent;
      persists, written := 0, map[];
    }

    constructor Open(file: PinFile)
      ensures State() == Load(file)
    {
      hasFile, pins, changed, refused, disk := true, map[], 0, 0, file;
      persists, written := 0, map[];
      new;
      Restore();
    }

    method Restore()
      requires hasFile && State() == Empty(disk, true)
      modifies this
      ensures State() == Load(old(disk))
    {
      if !disk.Stored? || disk.version != PIN_VERSION {
        return;
      }
      var table, dropped := ReadEntries(disk.pins);
      pins := table;
      refused := refused + dropped;
      written := table;
    }

    method TakeSnapshot() returns (entries: seq<StoredPin>)
      ensures entries == Snapshot(pins)
    {
      var names := SortNames(pins.Keys);
      SortedNamesElements(pins.Keys);
      entries := CollectPins(pins, names);
    }

    method PersistPins()
      modifies this
      ensures State() == Persist(old(State()))
    {
      persists, written := persists + 1, pins;
      if !hasFile {
        return;
      }
      var entries := TakeSnapshot();
      disk := Stored(PIN_VERSION, entries);
    }

    method ObserveAnnouncement(nickname: string, publicKey: string, now: nat) returns (outcome: PinOutcome)
      modifies this
      ensures (State(), outcome) == Observe(old(State()), nickname, publicKey, now)
    {
      var n := NormalizeNickname(nickname);
      if n == "" {
        refused := refused + 1;
        return Refused;
      }
      var key := CanonicalKey(publicKey);
      if key.None? {
        refused := refused + 1;
        return Refused;
      }
      var write := false;
      if n in pins {
        var pin := pins[n];
        if pin.publicKey == key.value {
          return Known;
        }
        write := !pin.changeWritten;
        pins := pins[n := pin.(publicKey := key.value, changed := true, changeWritten := true)];
        changed := changed + 1;
        outcome := Changed(pin.publicKey);
      } else if |pins| >= PIN_CAPACITY {
        refused := refused + 1;
        return Refused;
      } else {
        pins := pins[n := Pin(key.value, now, false, false)];
        write := true;
        outcome := FirstSeen;
      }
      if write {
        PersistPins();
      }
    }
  }
}
