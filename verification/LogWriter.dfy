/** The log appender that rolls by size and by day over a directory of files. */
module LogWriter {
  import opened Wrappers
  import opened Text
  import opened LogNames

  const U64_MAX: nat := 0xFFFF_FFFF_FFFF_FFFF

  type Directory = map<string, seq<byte>>

  datatype OpenFile = OpenFile(slot: Slot, written: nat)

  datatype Config = Config(prefix: string, maxBytes: nat, maxFiles: nat)

  datatype Log = Log(dir: Directory, active: Option<OpenFile>)

  /** The settings a constructed writer can have. */
  predicate Clamped(c: Config) {
    c.prefix != "" && 1 <= c.maxBytes <= U64_MAX && 1 <= c.maxFiles
  }

  /** A count of bytes as the 64-bit counter holds it. */
  function Measure(n: nat): nat {
    if n > U64_MAX then U64_MAX else n
  }

  function NextOf(index: nat): nat {
    if index >= U32_MAX then U32_MAX else index + 1
  }

  predicate IsOwn(name: string, prefix: string) {
    ParseFileName(name, prefix).Some?
  }

  function SlotOf(name: string, prefix: string): Slot {
    match ParseFileName(name, prefix)
    case Some(slot) => slot
    case None => Slot("", 0)
  }

  function OwnNames(dir: Directory, prefix: string): set<string> {
    set n | n in dir && IsOwn(n, prefix)
  }

  ghost predicate SortedBy(files: seq<string>, le: (string, string) -> bool) {
    forall i, j :: 0 <= i < j < |files| ==> files[i] != files[j] && le(files[i], files[j])
  }

  function ByAge(prefix: string): (string, string) -> bool {
    (a, b) => SlotLe(SlotOf(a, prefix), SlotOf(b, prefix))
  }

  ghost predicate Lists(files: seq<string>, names: set<string>) {
    forall n :: n in names <==> n in files
  }

  /** The names as retention sorts them; names with the same slot may stand either way. */
  ghost predicate AgeOrder(files: seq<string>, names: set<string>, prefix: string) {
    Lists(files, names) && SortedBy(files, ByAge(prefix))
  }

  function Excess(count: nat, maxFiles: nat): nat {
    if count > maxFiles then count - maxFiles else 0
  }

  function Elements(files: seq<string>): set<string> {
    set n | n in files
  }

  function ActiveNames(c: Config, l: Log): set<string> {
    match l.active
    case None => {}
    case Some(f) => {FileName(c.prefix, f.slot)}
  }

  /** Retention with the files sorted one way: the oldest go, but never the active one. */
  function PruneAs(c: Config, l: Log, files: seq<string>): Log {
    l.(dir := l.dir - (Elements(files[..Excess(|files|, c.maxFiles)]) - ActiveNames(c, l)))
  }

  ghost predicate Pruned(c: Config, l: Log, l': Log) {
    exists files :: AgeOrder(files, OwnNames(l.dir, c.prefix), c.prefix) && l' == PruneAs(c, l, files)
  }

  function OpenAt(c: Config, l: Log, slot: Slot): Log {
    var name := FileName(c.prefix, slot);
    var dir := if name in l.dir then l.dir else l.dir[name := []];
    Log(dir, Some(OpenFile(slot, Measure(|dir[name]|))))
  }

  ghost predicate Opens(c: Config, l: Log, slot: Slot, l': Log) {
    Pruned(c, OpenAt(c, l, slot), l')
  }

  predicate OfDay(dir: Directory, prefix: string, stamp: string, name: string) {
    name in dir && IsOwn(name, prefix) && SlotOf(name, prefix).stamp == stamp
  }

  /** Zero on a day without files, and otherwise one past the highest index in use. */
  ghost predicate IsNextIndex(dir: Directory, prefix: string, stamp: string, next: nat) {
    if forall n :: !OfDay(dir, prefix, stamp, n) then next == 0
    else exists last ::
      && OfDay(dir, prefix, stamp, last) && next == NextOf(SlotOf(last, prefix).index)
      && forall n :: OfDay(dir, prefix, stamp, n) ==> SlotOf(n, prefix).index <= SlotOf(last, prefix).index
  }

  /** The day's file is open: the old one, or one opened now. */
  ghost predicate Entered(c: Config, l: Log, stamp: string, l': Log) {
    match l.active
    case None => Opens(c, l, Slot(stamp, 0), l')
    case Some(f) =>
      if f.slot.stamp == stamp then l' == l
      else exists next :: IsNextIndex(l.dir, c.prefix, stamp, next) && Opens(c, l, Slot(stamp, next), l')
  }

  predicate IsFull(c: Config, f: OpenFile, pending: nat) {
    f.written > 0 && Measure(f.written + pending) > c.maxBytes
  }

  ghost predicate Rolled(c: Config, l: Log, pending: nat, l': Log) {
    match l.active
    case None => l' == l
    case Some(f) =>
      if IsFull(c, f, pending) then Opens(c, l, Slot(f.slot.stamp, NextOf(f.slot.index)), l') else l' == l
  }

  ghost predicate Prepared(c: Config, l: Log, stamp: string, pending: nat, l': Log) {
    exists mid :: Entered(c, l, stamp, mid) && Rolled(c, mid, pending, l')
  }

  /** The open file is in the directory, and its counter is its length. */
  ghost predicate Tracks(c: Config, l: Log) {
    l.active.Some? ==>
      && FileName(c.prefix, l.active.value.slot) in l.dir
      && l.active.value.written == Measure(|l.dir[FileName(c.prefix, l.active.value.slot)]|)
  }

  function Append(c: Config, l: Log, buf: seq<byte>): Log
    requires l.active.Some? && FileName(c.prefix, l.active.value.slot) in l.dir
  {
    var f := l.active.value;
    var name := FileName(c.prefix, f.slot);
    Log(l.dir[name := l.dir[name] + buf], Some(f.(written := Measure(f.written + |buf|))))
  }

  ghost predicate Written(c: Config, l: Log, stamp: string, buf: seq<byte>, l': Log) {
    if buf == [] then l' == l
    else exists ready ::
      && Prepared(c, l, stamp, |buf|, ready) && ready.active.Some? && Tracks(c, ready)
      && l' == Append(c, ready, buf)
  }

  // -------------------------------------------------------------- the age order

  lemma SlotLeTotal(a: Slot, b: Slot)
    ensures SlotLe(a, b) || SlotLe(b, a)
  {
    StringLeTotal(a.stamp, b.stamp);
    if StringLe(a.stamp, b.stamp) && StringLe(b.stamp, a.stamp) { StringLeAntisymmetric(a.stamp, b.stamp); }
  }

  lemma SlotLeTransitive(a: Slot, b: Slot, c: Slot)
    requires SlotLe(a, b) && SlotLe(b, c)
    ensures SlotLe(a, c)
  {
    StringLeTransitive(a.stamp, b.stamp, c.stamp);
    if a.stamp == c.stamp { StringLeAntisymmetric(a.stamp, b.stamp); }
  }

  lemma SlotLeAntisymmetric(a: Slot, b: Slot)
    requires SlotLe(a, b) && SlotLe(b, a)
    ensures a == b
  {
    StringLeAntisymmetric(a.stamp, b.stamp);
  }

  ghost predicate TotalOrder(le: (string, string) -> bool) {
    && (forall a, b :: le(a, b) || le(b, a))
    && (forall a, b, c :: le(a, b) && le(b, c) ==> le(a, c))
  }

  lemma ByAgeIsTotal(prefix: string)
    ensures TotalOrder(ByAge(prefix))
  {
    var le := ByAge(prefix);
    forall a, b ensures le(a, b) || le(b, a) { SlotLeTotal(SlotOf(a, prefix), SlotOf(b, prefix)); }
    forall a, b, c | le(a, b) && le(b, c) ensures le(a, c) {
      SlotLeTransitive(SlotOf(a, prefix), SlotOf(b, prefix), SlotOf(c, prefix));
    }
  }

  function InsertAt(files: seq<string>, name: string, k: nat): (all: seq<string>)
    requires k <= |files|
    ensures |all| == |files| + 1 && all[k] == name
    ensures forall i :: 0 <= i < k ==> all[i] == files[i]
    ensures forall i :: k < i < |all| ==> all[i] == files[i - 1]
  {
    files[..k] + [name] + files[k..]
  }

  lemma InsertKeepsOrder(files: seq<string>, le: (string, string) -> bool, name: string, k: nat)
    requires SortedBy(files, le) && name !in files && k <= |files|
    requires forall i :: 0 <= i < k ==> le(files[i], name)
    requires forall i :: k <= i < |files| ==> le(name, files[i])
    ensures SortedBy(InsertAt(files, name, k), le)
  {
    var all := InsertAt(files, name, k);
    forall i, j | 0 <= i < j < |all| ensures all[i] != all[j] && le(all[i], all[j]) {
      if i == k { assert all[j] == files[j - 1]; }
      if j == k { assert all[i] == files[i]; }
    }
  }

  lemma InsertLists(files: seq<string>, names: set<string>, name: string, k: nat)
    requires Lists(files, names) && k <= |files|
    ensures Lists(InsertAt(files, name, k), names + {name})
  {
    assert files == files[..k] + files[k..];
  }

  /** The position before which every file is at most as new as the given one. */
  method Position(files: seq<string>, le: (string, string) -> bool, name: string) returns (k: nat)
    requires SortedBy(files, le) && TotalOrder(le)
    ensures k <= |files|
    ensures forall i :: 0 <= i < k ==> le(files[i], name)
    ensures forall i :: k <= i < |files| ==> le(name, files[i])
  {
    k := |files|;
    while k > 0 && !le(files[k - 1], name)
      invariant k <= |files|
      invariant forall i :: k <= i < |files| ==> le(name, files[i])
    {
      k := k - 1;
    }
    forall i | 0 <= i < k ensures le(files[i], name) {
      assert i < k - 1 ==> le(files[i], files[k - 1]);
    }
  }

  /** Sorts what a scan of the directory found, in whatever order it came. */
  method Sort(names: set<string>, le: (string, string) -> bool) returns (files: seq<string>)
    requires TotalOrder(le)
    ensures Lists(files, names) && SortedBy(files, le)
  {
    files := [];
    var pending := names;
    while pending != {}
      invariant pending <= names && Lists(files, names - pending) && SortedBy(files, le)
      decreases |pending|
    {
      var name :| name in pending;
      var k := Position(files, le, name);
      InsertKeepsOrder(files, le, name, k);
      InsertLists(files, names - pending, name, k);
      assert names - pending + {name} == names - (pending - {name});
      files, pending := InsertAt(files, name, k), pending - {name};
    }
  }

  method HighestOf(names: set<string>, key: string -> nat) returns (highest: string)
    requires names != {}
    ensures highest in names && forall n :: n in names ==> key(n) <= key(highest)
  {
    highest :| highest in names;
    var pending := names - {highest};
    while pending != {}
      invariant pending <= names && highest in names - pending
      invariant forall n :: n in names - pending ==> key(n) <= key(highest)
      decreases |pending|
    {
      var n :| n in pending;
      if key(n) > key(highest) {
        highest := n;
      }
      pending := pending - {n};
    }
  }

  method NextIndex(dir: Directory, prefix: string, stamp: string) returns (next: nat)
    ensures IsNextIndex(dir, prefix, stamp, next)
  {
    var today := set n | n in dir && OfDay(dir, prefix, stamp, n);
    assert forall n :: OfDay(dir, prefix, stamp, n) <==> n in today;
    if today == {} {
      return 0;
    }
    var key := (n: string) => SlotOf(n, prefix).index;
    var last := HighestOf(today, key);
    assert forall n :: OfDay(dir, prefix, stamp, n) ==> key(n) <= key(last);
    next := NextOf(SlotOf(last, prefix).index);
  }

  method RemoveAll(dir: Directory, files: seq<string>, spared: set<string>) returns (left: Directory)
    ensures left == dir - (Elements(files) - spared)
  {
    left := dir;
    for i := 0 to |files|
      invariant left == dir - (Elements(files[..i]) - spared)
    {
      assert files[..i + 1] == files[..i] + [files[i]];
      assert Elements(files[..i + 1]) == Elements(files[..i]) + {files[i]};
      if files[i] in spared {
        continue;
      }
      left := left - {files[i]};
    }
    assert files[..|files|] == files;
  }

  // ------------------------------------------------------------------ the writer

  class SizeRotatingWriter {
    const config: Config
    var dir: Directory
    var active: Option<OpenFile>

    ghost function State(): Log
      reads this
    {
      Log(dir, active)
    }

    ghost predicate Valid()
      reads this
    {
      Clamped(config) && Tracks(config, State())
    }

    constructor (prefix: string, maxBytes: nat, maxFiles: nat, directory: Directory)
      requires maxBytes <= U64_MAX
      ensures Valid() && State() == Log(directory, None)
      ensures config.prefix == (if prefix == "" then "meta-text.log" else prefix)
      ensures config.maxBytes == (if maxBytes == 0 then 1 else maxBytes)
      ensures config.maxFiles == (if maxFiles == 0 then 1 else maxFiles)
    {
      config := Config(
        if prefix == "" then "meta-text.log" else prefix,
        if maxBytes == 0 then 1 else maxBytes,
        if maxFiles == 0 then 1 else maxFiles);
      dir, active := directory, None;
    }

    method OpenAndPrune(slot: Slot)
      requires Clamped(config)
      modifies this
      ensures Valid() && active.Some? && Opens(config, old(State()), slot, State())
    {
      var name := FileName(config.prefix, slot);
      if name !in dir {
        dir := dir[name := []];
      }
      active := Some(OpenFile(slot, Measure(|dir[name]|)));
      Prune();
    }

    method Prune()
      requires Valid()
      modifies this`dir
      ensures Valid() && Pruned(config, old(State()), State())
    {
      ByAgeIsTotal(config.prefix);
      var files := Sort(OwnNames(dir, config.prefix), ByAge(config.prefix));
      dir := RemoveAll(dir, files[..Excess(|files|, config.maxFiles)], ActiveNames(config, Log(dir, active)));
      assert State() == PruneAs(config, old(State()), files);
    }

    method Prepare(stamp: string, pending: nat)
      requires Valid()
      modifies this
      ensures Valid() && active.Some? && Prepared(config, old(State()), stamp, pending, State())
    {
      if active.None? {
        OpenAndPrune(Slot(stamp, 0));
      } else if active.value.slot.stamp != stamp {
        var next := NextIndex(dir, config.prefix, stamp);
        OpenAndPrune(Slot(stamp, next));
      }
      ghost var mid := State();
      assert Entered(config, old(State()), stamp, mid);
      var f := active.value;
      if IsFull(config, f, pending) {
        OpenAndPrune(Slot(f.slot.stamp, NextOf(f.slot.index)));
      }
      assert Rolled(config, mid, pending, State());
    }

    /** Opens the day's file without writing to it. */
    method Open(stamp: string)
      requires Valid()
      modifies this
      ensures Valid() && Prepared(config, old(State()), stamp, 0, State())
    {
      Prepare(stamp, 0);
    }

    /** Appends one buffer; returns how many bytes were taken. */
    method Write(stamp: string, buf: seq<byte>) returns (n: nat)
      requires Valid()
      modifies this
      ensures Valid() && Written(config, old(State()), stamp, buf, State()) && n == |buf|
    {
      if buf == [] {
        return 0;
      }
      Prepare(stamp, |buf|);
      ghost var ready := State();
      var f := active.value;
      var name := FileName(config.prefix, f.slot);
      dir := dir[name := dir[name] + buf];
      active := Some(f.(written := Measure(f.written + |buf|)));
      assert State() == Append(config, ready, buf);
      n := |buf|;
    }
  }
}
