/** What retention keeps and removes, whatever the directory holds. */
module LogRetention {
  import opened Wrappers
  import opened Text
  import opened LogNames
  import opened LogWriter

  lemma {:induction false} DistinctCount(files: seq<string>)
    requires forall i, j :: 0 <= i < j < |files| ==> files[i] != files[j]
    ensures |Elements(files)| == |files|
  {
    if files != [] {
      var k := |files| - 1;
      DistinctCount(files[..k]);
      assert files == files[..k] + [files[k]];
      assert Elements(files) == Elements(files[..k]) + {files[k]};
    }
  }

  ghost predicate Distinct(files: seq<string>) {
    forall i, j :: 0 <= i < j < |files| ==> files[i] != files[j]
  }

  /** A list split in two: which names the second part has, and how many each part has. */
  lemma SplitCounts(files: seq<string>, names: set<string>, k: nat)
    requires Lists(files, names) && Distinct(files) && k <= |files|
    ensures |names| == |files|
    ensures |Elements(files[..k])| == k && |Elements(files[k..])| == |files| - k
    ensures Elements(files[k..]) == names - Elements(files[..k])
  {
    assert Elements(files) == names;
    DistinctCount(files);
    DistinctCount(files[..k]);
    DistinctCount(files[k..]);
    forall n | n in files[k..] ensures n !in files[..k] {
      var j :| 0 <= j < |files[k..]| && files[k..][j] == n;
      assert n == files[k + j];
    }
    assert files == files[..k] + files[k..];
  }

  /** What is left of the names when the first `k` go, except those spared. */
  lemma LeftNames(files: seq<string>, names: set<string>, k: nat, spared: set<string>)
    requires Lists(files, names) && Distinct(files) && k <= |files|
    ensures names - (Elements(files[..k]) - spared) == Elements(files[k..]) + (Elements(files[..k]) * spared)
    ensures |names - (Elements(files[..k]) - spared)| == |files| - k + |Elements(files[..k]) * spared|
  {
    SplitCounts(files, names, k);
    assert files == files[..k] + files[k..];
    assert Elements(files[k..]) !! (Elements(files[..k]) * spared);
  }

  lemma OwnAfterRemoval(dir: Directory, prefix: string, gone: set<string>)
    ensures OwnNames(dir - gone, prefix) == OwnNames(dir, prefix) - gone
  {
  }

  /** The files in the order retention used, and what it left of them. */
  lemma Retention(c: Config, l: Log, l': Log) returns (files: seq<string>, k: nat)
    requires Pruned(c, l, l')
    ensures AgeOrder(files, OwnNames(l.dir, c.prefix), c.prefix) && Distinct(files)
    ensures k == Excess(|files|, c.maxFiles) && l' == PruneAs(c, l, files)
    ensures OwnNames(l'.dir, c.prefix) == OwnNames(l.dir, c.prefix) - (Elements(files[..k]) - ActiveNames(c, l))
  {
    files :| AgeOrder(files, OwnNames(l.dir, c.prefix), c.prefix) && l' == PruneAs(c, l, files);
    k := Excess(|files|, c.maxFiles);
    OwnAfterRemoval(l.dir, c.prefix, Elements(files[..k]) - ActiveNames(c, l));
  }

  /**
   Retention deletes nothing but files whose names it recognises, never the one being
   written, and changes no file it leaves.
   */
  lemma PruneSpares(c: Config, l: Log, l': Log, name: string)
    requires Pruned(c, l, l') && name in l.dir
    requires !IsOwn(name, c.prefix) || name in ActiveNames(c, l)
    ensures name in l'.dir
    ensures l'.active == l.active && forall n :: n in l'.dir ==> n in l.dir && l'.dir[n] == l.dir[n]
  {
    var files, k := Retention(c, l, l');
    if name in files[..k] {
      assert name in files;
      assert name in OwnNames(l.dir, c.prefix);
    }
  }

  /** What is deleted is at most as new as any recognised file that is left. */
  lemma PruneTakesOldest(c: Config, l: Log, l': Log, gone: string, left: string)
    requires Pruned(c, l, l') && gone in l.dir && gone !in l'.dir
    requires left in OwnNames(l'.dir, c.prefix) && left !in ActiveNames(c, l)
    ensures SlotLe(SlotOf(gone, c.prefix), SlotOf(left, c.prefix))
  {
    var files, k := Retention(c, l, l');
    SplitCounts(files, OwnNames(l.dir, c.prefix), k);
    assert gone in files[..k] && left in files[k..];
    var i :| 0 <= i < k && files[i] == gone;
    var j :| 0 <= j < |files| - k && files[k..][j] == left;
    assert ByAge(c.prefix)(files[i], files[k + j]);
  }

  /** At most one file more than the limit is left, and then it is the one being written. */
  lemma PruneLeavesOneMore(c: Config, l: Log, l': Log)
    requires Pruned(c, l, l')
    ensures |OwnNames(l'.dir, c.prefix)| <= c.maxFiles + 1
  {
    var files, k := Retention(c, l, l');
    LeftNames(files, OwnNames(l.dir, c.prefix), k, ActiveNames(c, l));
    AtMostOne(Elements(files[..k]), ActiveNames(c, l));
  }

  lemma AtMostOne(a: set<string>, b: set<string>)
    requires |b| <= 1
    ensures |a * b| <= 1
  {
    assert |b| == |a * b| + |b - a * b|;
  }

  lemma {:induction false} Greatest(names: set<string>, le: (string, string) -> bool) returns (m: string)
    requires TotalOrder(le) && names != {}
    ensures m in names && forall n :: n in names ==> le(n, m)
    decreases |names|
  {
    m :| m in names;
    if names != {m} {
      var k := Greatest(names - {m}, le);
      if le(m, k) { m := k; }
    }
  }

  lemma {:induction false} Listing(names: set<string>, le: (string, string) -> bool) returns (files: seq<string>)
    requires TotalOrder(le)
    ensures Lists(files, names) && SortedBy(files, le)
    decreases |names|
  {
    files := [];
    if names != {} {
      var m := Greatest(names, le);
      var init := Listing(names - {m}, le);
      files := init + [m];
    }
  }

  /** The other recognised files that are not older than the one being written. */
  function Rivals(c: Config, l: Log): set<string> {
    match l.active
    case None => {}
    case Some(f) =>
      set n | n in OwnNames(l.dir, c.prefix) && n !in ActiveNames(c, l) && SlotLe(f.slot, SlotOf(n, c.prefix))
  }

  /** The age order in which one name stands first among those of its slot. */
  function ByAgeWithFirst(prefix: string, name: string): (string, string) -> bool {
    (a, b) => SlotLe(SlotOf(a, prefix), SlotOf(b, prefix))
              && (SlotOf(a, prefix) == SlotOf(b, prefix) ==> a == name || b != name)
  }

  lemma ByAgeWithFirstIsTotal(prefix: string, name: string)
    ensures TotalOrder(ByAgeWithFirst(prefix, name))
  {
    var le := ByAgeWithFirst(prefix, name);
    forall a, b ensures le(a, b) || le(b, a) { SlotLeTotal(SlotOf(a, prefix), SlotOf(b, prefix)); }
    forall a, b, c | le(a, b) && le(b, c) ensures le(a, c) {
      SlotLeTransitive(SlotOf(a, prefix), SlotOf(b, prefix), SlotOf(c, prefix));
      if SlotOf(a, prefix) == SlotOf(c, prefix) { SlotLeAntisymmetric(SlotOf(a, prefix), SlotOf(b, prefix)); }
    }
  }

  lemma SubsetCount<T>(a: set<T>, b: set<T>)
    requires a <= b
    ensures |a| <= |b|
  {
    assert b == a + (b - a);
  }

  /** The open file of a log, recognised by its name. */
  ghost predicate OpenIsListed(c: Config, l: Log, name: string) {
    && l.active.Some? && Dated(l.active.value.slot.stamp) && l.active.value.slot.index <= U32_MAX
    && name == FileName(c.prefix, l.active.value.slot) && name in l.dir
  }

  lemma OpenIsOwn(c: Config, l: Log, name: string)
    requires OpenIsListed(c, l, name)
    ensures name in OwnNames(l.dir, c.prefix) && SlotOf(name, c.prefix) == l.active.value.slot
    ensures ActiveNames(c, l) == {name}
  {
    OwnNameReadsBack(c.prefix, l.active.value.slot);
  }

  /** In any order, what stands behind the open file is a rival. */
  lemma BehindAreRivals(c: Config, l: Log, name: string, files: seq<string>, k: nat)
    requires OpenIsListed(c, l, name) && AgeOrder(files, OwnNames(l.dir, c.prefix), c.prefix)
    requires k < |files| && files[k] == name
    ensures |files| - 1 - k <= |Rivals(c, l)|
  {
    OpenIsOwn(c, l, name);
    var le := ByAge(c.prefix);
    forall n | n in files[k + 1..] ensures n in Rivals(c, l) {
      var j :| 0 <= j < |files| - k - 1 && files[k + 1..][j] == n;
      assert files[k + 1 + j] == n && le(files[k], files[k + 1 + j]);
      assert n in files;
    }
    DistinctCount(files[k + 1..]);
    SubsetCount(Elements(files[k + 1..]), Rivals(c, l));
  }

  lemma RivalIsBehind(c: Config, l: Log, name: string, files: seq<string>, k: nat, j: nat)
    requires OpenIsListed(c, l, name) && SortedBy(files, ByAgeWithFirst(c.prefix, name))
    requires k < |files| && files[k] == name && j < |files| && files[j] in Rivals(c, l)
    ensures j > k
  {
    OpenIsOwn(c, l, name);
    if j < k {
      assert ByAgeWithFirst(c.prefix, name)(files[j], files[k]);
      SlotLeAntisymmetric(SlotOf(files[j], c.prefix), SlotOf(files[k], c.prefix));
    }
  }

  /** In the worst order, every rival stands behind the open file. */
  lemma RivalsAreBehind(c: Config, l: Log, name: string, files: seq<string>, k: nat)
    requires OpenIsListed(c, l, name) && Lists(files, OwnNames(l.dir, c.prefix))
    requires SortedBy(files, ByAgeWithFirst(c.prefix, name)) && k < |files| && files[k] == name
    ensures |Rivals(c, l)| <= |files| - 1 - k
  {
    forall n | n in Rivals(c, l) ensures n in files[k + 1..] {
      assert n in files;
      var j :| 0 <= j < |files| && files[j] == n;
      RivalIsBehind(c, l, name, files, k, j);
      assert files[k + 1..][j - k - 1] == n;
    }
    DistinctCount(files[k + 1..]);
    SubsetCount(Rivals(c, l), Elements(files[k + 1..]));
  }

  lemma CountAfterPrune(c: Config, l: Log, name: string, files: seq<string>, k: nat)
    requires Clamped(c) && OpenIsListed(c, l, name) && AgeOrder(files, OwnNames(l.dir, c.prefix), c.prefix)
    requires k < |files| && files[k] == name
    ensures var e := Excess(|files|, c.maxFiles);
      |OwnNames(PruneAs(c, l, files).dir, c.prefix)| == |files| - e + (if k < e then 1 else 0)
    ensures |OwnNames(l.dir, c.prefix)| == |files|
  {
    var (own, e) := (OwnNames(l.dir, c.prefix), Excess(|files|, c.maxFiles));
    OpenIsOwn(c, l, name);
    OwnAfterRemoval(l.dir, c.prefix, Elements(files[..e]) - {name});
    LeftNames(files, own, e, {name});
    SplitCounts(files, own, e);
    SparedCount(files, e, k);
  }

  /** Whichever order the directory is read in, the limit is met if few enough files are rivals. */
  lemma FewRivalsMeetLimit(c: Config, l: Log, l': Log, name: string)
    requires Clamped(c) && OpenIsListed(c, l, name) && Pruned(c, l, l')
    requires |OwnNames(l.dir, c.prefix)| <= c.maxFiles || |Rivals(c, l)| < c.maxFiles
    ensures |OwnNames(l'.dir, c.prefix)| <= c.maxFiles
  {
    var files, e := Retention(c, l, l');
    OpenIsOwn(c, l, name);
    assert name in files;
    var k :| 0 <= k < |files| && files[k] == name;
    BehindAreRivals(c, l, name, files, k);
    CountAfterPrune(c, l, name, files, k);
  }

  /** With too many rivals there is an order in which one file too many is left. */
  lemma ManyRivalsExceed(c: Config, l: Log, name: string) returns (l': Log)
    requires Clamped(c) && OpenIsListed(c, l, name)
    requires |OwnNames(l.dir, c.prefix)| > c.maxFiles && |Rivals(c, l)| >= c.maxFiles
    ensures Pruned(c, l, l') && |OwnNames(l'.dir, c.prefix)| == c.maxFiles + 1
  {
    var le := ByAgeWithFirst(c.prefix, name);
    ByAgeWithFirstIsTotal(c.prefix, name);
    var files := Listing(OwnNames(l.dir, c.prefix), le);
    OpenIsOwn(c, l, name);
    assert name in files;
    var k :| 0 <= k < |files| && files[k] == name;
    RivalsAreBehind(c, l, name, files, k);
    SortedByAge(files, c.prefix, name);
    CountAfterPrune(c, l, name, files, k);
    l' := PruneAs(c, l, files);
  }

  lemma SortedByAge(files: seq<string>, prefix: string, name: string)
    requires SortedBy(files, ByAgeWithFirst(prefix, name))
    ensures SortedBy(files, ByAge(prefix))
  {
    var (le, age) := (ByAgeWithFirst(prefix, name), ByAge(prefix));
    forall i, j | 0 <= i < j < |files| ensures files[i] != files[j] && age(files[i], files[j]) {
      assert le(files[i], files[j]);
    }
  }

  /**
   For any directory: retention respects the limit in whatever order the directory is read
   exactly when there is nothing to delete or fewer other files than the limit are at least
   as new as the one being written.
   */
  lemma PruneMeetsLimitIff(c: Config, l: Log, name: string)
    requires Clamped(c) && OpenIsListed(c, l, name)
    ensures (forall l' | Pruned(c, l, l') :: |OwnNames(l'.dir, c.prefix)| <= c.maxFiles)
       <==> |OwnNames(l.dir, c.prefix)| <= c.maxFiles || |Rivals(c, l)| < c.maxFiles
  {
    if |OwnNames(l.dir, c.prefix)| <= c.maxFiles || |Rivals(c, l)| < c.maxFiles {
      forall l' | Pruned(c, l, l') ensures |OwnNames(l'.dir, c.prefix)| <= c.maxFiles {
        FewRivalsMeetLimit(c, l, l', name);
      }
    } else {
      var l' := ManyRivalsExceed(c, l, name);
    }
  }

  lemma SparedCount(files: seq<string>, e: nat, k: nat)
    requires Distinct(files) && e <= |files| && k < |files|
    ensures |Elements(files[..e]) * {files[k]}| == if k < e then 1 else 0
  {
    if k < e {
      assert files[..e][k] == files[k];
      assert Elements(files[..e]) * {files[k]} == {files[k]};
    } else {
      assert Elements(files[..e]) * {files[k]} == {};
    }
  }

  lemma LastStays(files: seq<string>, names: set<string>, le: (string, string) -> bool, k: nat, name: string)
    returns (last: string)
    requires Lists(files, names) && SortedBy(files, le) && TotalOrder(le) && k < |files| && name in names
    ensures last in names - Elements(files[..k]) && le(name, last)
  {
    last := files[|files| - 1];
    SplitCounts(files, names, k);
    assert last == files[k..][|files| - 1 - k];
    var i :| 0 <= i < |files| && files[i] == name;
    assert le(files[i], last);
  }

  /** The newest recognised file always survives. */
  lemma NewestSurvives(c: Config, l: Log, l': Log, newest: string) returns (n: string)
    requires Clamped(c) && Pruned(c, l, l') && newest in OwnNames(l.dir, c.prefix)
    ensures n in OwnNames(l'.dir, c.prefix) && ByAge(c.prefix)(newest, n)
  {
    var files, k := Retention(c, l, l');
    ByAgeIsTotal(c.prefix);
    assert newest in files;
    n := LastStays(files, OwnNames(l.dir, c.prefix), ByAge(c.prefix), k, newest);
  }

  // --------------------------------------------------- when the order is chronological

  /** A date the clock can report. */
  ghost predicate Dated(stamp: string) {
    |stamp| >= 10 && DotFree(stamp) && stamp[4] == '-'
  }

  lemma OwnNameReadsBack(prefix: string, slot: Slot)
    requires Dated(slot.stamp) && slot.index <= U32_MAX
    ensures IsOwn(FileName(prefix, slot), prefix) && SlotOf(FileName(prefix, slot), prefix) == slot
  {
    NameReadsBackIff(prefix, slot);
  }

  /** No recognised file is newer than the given slot. */
  ghost predicate NothingAfter(dir: Directory, prefix: string, slot: Slot) {
    forall n :: n in OwnNames(dir, prefix) ==> SlotLe(SlotOf(n, prefix), slot)
  }

  lemma OpeningKeepsNewer(c: Config, l: Log, slot: Slot, l': Log, bar: Slot)
    requires Clamped(c) && Dated(slot.stamp) && slot.index <= U32_MAX
    requires Opens(c, l, slot, l') && SlotLe(slot, bar)
    ensures l'.active.Some? && l'.active.value.slot == slot
    ensures NothingAfter(l'.dir, c.prefix, bar) <==> NothingAfter(l.dir, c.prefix, bar)
  {
    var mid := OpenAt(c, l, slot);
    OwnNameReadsBack(c.prefix, slot);
    assert OwnNames(mid.dir, c.prefix) == OwnNames(l.dir, c.prefix) + {FileName(c.prefix, slot)};
    if NothingAfter(l'.dir, c.prefix, bar) {
      forall n | n in OwnNames(l.dir, c.prefix) ensures SlotLe(SlotOf(n, c.prefix), bar) {
        var m := NewestSurvives(c, mid, l', n);
        SlotLeTransitive(SlotOf(n, c.prefix), SlotOf(m, c.prefix), bar);
      }
    }
    if NothingAfter(l.dir, c.prefix, bar) {
      forall n | n in OwnNames(l'.dir, c.prefix) ensures SlotLe(SlotOf(n, c.prefix), bar) {
        assert n in OwnNames(mid.dir, c.prefix);
      }
    }
  }

  /** The file the first write of a run goes to. */
  function FirstSlot(c: Config, dir: Directory, stamp: string, pending: nat): Slot {
    var name := FileName(c.prefix, Slot(stamp, 0));
    var written := if name in dir then Measure(|dir[name]|) else 0;
    Slot(stamp, if IsFull(c, OpenFile(Slot(stamp, 0), written), pending) then 1 else 0)
  }

  lemma SlotsOfDay(stamp: string)
    ensures SlotLe(Slot(stamp, 0), Slot(stamp, 0)) && SlotLe(Slot(stamp, 0), Slot(stamp, 1))
    ensures SlotLe(Slot(stamp, 1), Slot(stamp, 1))
  {
    StringLeTotal(stamp, stamp);
  }

  /**
   After the first write of a run the open file is the newest exactly when the directory
   held nothing newer than it: index 0 of today, or index 1 when index 0 was already full.
   */
  lemma FirstFileIsNewestIff(c: Config, dir: Directory, stamp: string, pending: nat, l': Log)
    requires Clamped(c) && Dated(stamp) && Prepared(c, Log(dir, None), stamp, pending, l')
    ensures l'.active.Some? && l'.active.value.slot == FirstSlot(c, dir, stamp, pending)
    ensures NothingAfter(l'.dir, c.prefix, l'.active.value.slot)
       <==> NothingAfter(dir, c.prefix, FirstSlot(c, dir, stamp, pending))
  {
    var l := Log(dir, None);
    var mid :| Entered(c, l, stamp, mid) && Rolled(c, mid, pending, l');
    var bar := FirstSlot(c, dir, stamp, pending);
    SlotsOfDay(stamp);
    OpeningKeepsNewer(c, l, Slot(stamp, 0), mid, bar);
    var f := mid.active.value;
    if IsFull(c, f, pending) {
      OpeningKeepsNewer(c, mid, Slot(stamp, 1), l', bar);
    }
  }

  /** Two dates of which the first is the earlier one. */
  ghost predicate EarlierDate(a: string, b: string) {
    Dated(a) && Dated(b) && StringLe(a, b) && a != b
  }

  lemma TwoFilesInOrder(prefix: string, today: string, tomorrow: string)
    requires EarlierDate(today, tomorrow)
    ensures var (a, b) := (FileName(prefix, Slot(today, 0)), FileName(prefix, Slot(tomorrow, 0)));
      a != b && AgeOrder([a, b], {a, b}, prefix) && Distinct([a, b])
  {
    OwnNameReadsBack(prefix, Slot(today, 0));
    OwnNameReadsBack(prefix, Slot(tomorrow, 0));
  }

  lemma TwoOwnNames(prefix: string, today: string, tomorrow: string, x: seq<byte>, y: seq<byte>)
    requires EarlierDate(today, tomorrow)
    ensures var (a, b) := (FileName(prefix, Slot(today, 0)), FileName(prefix, Slot(tomorrow, 0)));
      OwnNames(map[a := x, b := y], prefix) == {a, b}
  {
    OwnNameReadsBack(prefix, Slot(today, 0));
    OwnNameReadsBack(prefix, Slot(tomorrow, 0));
  }

  lemma OnlyActiveIsDue(c: Config, l: Log, a: string, b: string)
    requires c.maxFiles == 1 && ActiveNames(c, l) == {a}
    ensures PruneAs(c, l, [a, b]) == l
  {
    assert [a, b][..1] == [a];
    assert Elements([a]) - {a} == {};
  }

  /** Opening today's file beside tomorrow's with room for one file deletes neither. */
  lemma NothingIsPruned(c: Config, today: string, tomorrow: string, kept: seq<byte>)
    requires Clamped(c) && c.maxFiles == 1 && EarlierDate(today, tomorrow)
    ensures var (a, b) := (FileName(c.prefix, Slot(today, 0)), FileName(c.prefix, Slot(tomorrow, 0)));
      var l := OpenAt(c, Log(map[b := kept], None), Slot(today, 0));
      && l == Log(map[a := [], b := kept], Some(OpenFile(Slot(today, 0), 0)))
      && OwnNames(l.dir, c.prefix) == {a, b} && Pruned(c, l, l)
  {
    var (a, b) := (FileName(c.prefix, Slot(today, 0)), FileName(c.prefix, Slot(tomorrow, 0)));
    var l := OpenAt(c, Log(map[b := kept], None), Slot(today, 0));
    TwoFilesInOrder(c.prefix, today, tomorrow);
    TwoOwnNames(c.prefix, today, tomorrow, [], kept);
    assert l.dir == map[a := [], b := kept];
    OnlyActiveIsDue(c, l, a, b);
  }

  /**
   A directory that holds tomorrow's first file, a limit of one file and a first write today
   leave two files, and the one written to is not the newest.
   */
  lemma FirstWriteBesideLaterFile(c: Config, today: string, tomorrow: string, kept: seq<byte>, buf: seq<byte>)
    returns (l': Log)
    requires Clamped(c) && c.maxFiles == 1 && EarlierDate(today, tomorrow) && buf != []
    ensures Written(c, Log(map[FileName(c.prefix, Slot(tomorrow, 0)) := kept], None), today, buf, l')
    ensures |OwnNames(l'.dir, c.prefix)| == c.maxFiles + 1
    ensures l'.active.Some? && !NothingAfter(l'.dir, c.prefix, l'.active.value.slot)
  {
    var (a, b) := (FileName(c.prefix, Slot(today, 0)), FileName(c.prefix, Slot(tomorrow, 0)));
    var l := Log(map[b := kept], None);
    var mid := OpenAt(c, l, Slot(today, 0));
    NothingIsPruned(c, today, tomorrow, kept);
    TwoFilesInOrder(c.prefix, today, tomorrow);
    assert Entered(c, l, today, mid) && Rolled(c, mid, |buf|, mid);
    assert Prepared(c, l, today, |buf|, mid) && Tracks(c, mid);
    l' := Append(c, mid, buf);
    assert l'.dir == map[a := [] + buf, b := kept];
    TwoOwnNames(c.prefix, today, tomorrow, [] + buf, kept);
    OwnNameReadsBack(c.prefix, Slot(tomorrow, 0));
    if StringLe(tomorrow, today) { StringLeAntisymmetric(tomorrow, today); }
    assert b in OwnNames(l'.dir, c.prefix) && !SlotLe(Slot(tomorrow, 0), Slot(today, 0));
  }

  /** Such a directory and such dates exist. */
  lemma LimitIsExceeded() returns (c: Config, dir: Directory, stamp: string, buf: seq<byte>, l': Log)
    ensures Clamped(c) && Dated(stamp) && Written(c, Log(dir, None), stamp, buf, l')
    ensures |OwnNames(l'.dir, c.prefix)| == c.maxFiles + 1
    ensures l'.active.Some? && !NothingAfter(l'.dir, c.prefix, l'.active.value.slot)
  {
    c, stamp, buf := Config("meta-text.log", 10, 1), "2026-09-14", [0];
    var day := "2026-09-1";
    assert stamp == day + "4" && "2026-09-15" == day + "5";
    CodesAppend(day, "4");
    CodesAppend(day, "5");
    LexCommonPrefix(Codes(day), Codes("4"), Codes("5"));
    assert StringLe(stamp, "2026-09-15");
    l' := FirstWriteBesideLaterFile(c, stamp, "2026-09-15", [], buf);
    dir := map[FileName(c.prefix, Slot("2026-09-15", 0)) := []];
  }
}
