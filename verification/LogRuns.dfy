/**
 Whole runs of the appender on a directory in which today's files are not ahead of it:
 the directory behaves as a list of files, oldest first, to whose last file everything goes.
 */
module LogRuns {
  import opened Wrappers
  import opened Text
  import opened LogNames
  import opened LogWriter
  import opened LogRetention

  /** A file as the buffers it holds; a file from an earlier run counts as one buffer. */
  datatype Rec = Rec(name: string, slot: Slot, chunks: seq<seq<byte>>, created: bool)

  function Bytes(chunks: seq<seq<byte>>): seq<byte>
    decreases |chunks|
  {
    if chunks == [] then [] else Bytes(chunks[..|chunks| - 1]) + chunks[|chunks| - 1]
  }

  function AllChunks(recs: seq<Rec>): seq<seq<byte>>
    decreases |recs|
  {
    if recs == [] then [] else AllChunks(recs[..|recs| - 1]) + recs[|recs| - 1].chunks
  }

  predicate SlotLt(a: Slot, b: Slot) {
    SlotLe(a, b) && a != b
  }

  ghost predicate Ascending(recs: seq<Rec>) {
    forall i, j :: 0 <= i < j < |recs| ==> SlotLt(recs[i].slot, recs[j].slot)
  }

  function Last(recs: seq<Rec>): Rec
    requires recs != []
  {
    recs[|recs| - 1]
  }

  function Size(rec: Rec): nat {
    |Bytes(rec.chunks)|
  }

  // ---------------------------------------------------- the appender over a list

  function NewRec(c: Config, slot: Slot): Rec {
    Rec(FileName(c.prefix, slot), slot, [], true)
  }

  function Touch(c: Config, recs: seq<Rec>, slot: Slot): seq<Rec> {
    if recs != [] && Last(recs).slot == slot then recs else recs + [NewRec(c, slot)]
  }

  function DropOldest(c: Config, recs: seq<Rec>): seq<Rec> {
    recs[Excess(|recs|, c.maxFiles)..]
  }

  function Visit(c: Config, recs: seq<Rec>, slot: Slot): seq<Rec> {
    DropOldest(c, Touch(c, recs, slot))
  }

  function EnterDay(c: Config, recs: seq<Rec>, isOpen: bool, stamp: string): seq<Rec> {
    if isOpen && recs != [] && Last(recs).slot.stamp == stamp then recs else Visit(c, recs, Slot(stamp, 0))
  }

  predicate LastIsFull(c: Config, recs: seq<Rec>, pending: nat) {
    recs != [] && Size(Last(recs)) > 0 && Measure(Size(Last(recs)) + pending) > c.maxBytes
  }

  function NextSlot(slot: Slot): Slot {
    Slot(slot.stamp, NextOf(slot.index))
  }

  function RollOver(c: Config, recs: seq<Rec>, pending: nat): seq<Rec> {
    if LastIsFull(c, recs, pending) then Visit(c, recs, NextSlot(Last(recs).slot)) else recs
  }

  function MakeReady(c: Config, recs: seq<Rec>, isOpen: bool, stamp: string, pending: nat): seq<Rec> {
    RollOver(c, EnterDay(c, recs, isOpen, stamp), pending)
  }

  function Put(recs: seq<Rec>, buf: seq<byte>): seq<Rec>
    requires recs != []
  {
    recs[..|recs| - 1] + [Last(recs).(chunks := Last(recs).chunks + [buf])]
  }

  // -------------------------------------------------------- the list and the directory

  predicate Stands(dir: Directory, rec: Rec) {
    rec.name in dir && dir[rec.name] == Bytes(rec.chunks)
  }

  /** The name is one that is recognised, and it stands for this slot. */
  predicate Named(c: Config, rec: Rec) {
    IsOwn(rec.name, c.prefix) && SlotOf(rec.name, c.prefix) == rec.slot
  }

  ghost predicate Recognised(slot: Slot) {
    Dated(slot.stamp) && slot.index <= U32_MAX
  }

  function Names(recs: seq<Rec>): (names: seq<string>)
    ensures |names| == |recs|
    ensures forall i :: 0 <= i < |recs| ==> names[i] == recs[i].name
  {
    seq(|recs|, i requires 0 <= i < |recs| => recs[i].name)
  }

  /** The recognised files of the directory, oldest first, and what each holds. */
  ghost predicate Holds(c: Config, dir: Directory, recs: seq<Rec>) {
    && Ascending(recs)
    && (forall i :: 0 <= i < |recs| ==> Named(c, recs[i]) && Stands(dir, recs[i]))
    && Lists(Names(recs), OwnNames(dir, c.prefix))
  }

  /** The newest file has the name the appender would give it. */
  predicate Canonical(c: Config, recs: seq<Rec>) {
    recs != [] && Last(recs).name == FileName(c.prefix, Last(recs).slot)
  }

  /** The open file, if there is one, is the newest. */
  ghost predicate Shows(c: Config, l: Log, recs: seq<Rec>) {
    && Holds(c, l.dir, recs)
    && (l.active.Some? ==>
          && Canonical(c, recs) && l.active.value == OpenFile(Last(recs).slot, Measure(Size(Last(recs)))))
  }

  lemma SlotLtTransitive(a: Slot, b: Slot, d: Slot)
    requires SlotLt(a, b) && (SlotLt(b, d) || b == d)
    ensures SlotLt(a, d)
  {
    if b != d {
      SlotLeTransitive(a, b, d);
      if a == d { SlotLeAntisymmetric(a, b); }
    }
  }

  /** The slot is the newest file's, spelled as the appender spells it, or a later one. */
  ghost predicate Reachable(c: Config, recs: seq<Rec>, slot: Slot) {
    || recs == [] || SlotLt(Last(recs).slot, slot)
    || (Last(recs).slot == slot && Canonical(c, recs))
  }

  lemma TouchAscends(c: Config, recs: seq<Rec>, slot: Slot)
    requires Ascending(recs) && Reachable(c, recs, slot)
    ensures Ascending(Touch(c, recs, slot)) && Canonical(c, Touch(c, recs, slot))
    ensures Last(Touch(c, recs, slot)).slot == slot
  {
    if recs != [] && Last(recs).slot != slot {
      forall i | 0 <= i < |recs| ensures SlotLt(recs[i].slot, slot) {
        if i < |recs| - 1 { SlotLtTransitive(recs[i].slot, Last(recs).slot, slot); }
      }
    }
  }

  lemma NamedSlot(c: Config, dir: Directory, recs: seq<Rec>, name: string) returns (i: nat)
    requires Holds(c, dir, recs) && name in OwnNames(dir, c.prefix)
    ensures i < |recs| && recs[i].name == name && recs[i].slot == SlotOf(name, c.prefix)
  {
    i :| 0 <= i < |recs| && Names(recs)[i] == name;
    assert Named(c, recs[i]);
  }

  lemma LaterSlotIsNew(recs: seq<Rec>, slot: Slot, i: nat)
    requires Ascending(recs) && i < |recs| && SlotLt(Last(recs).slot, slot)
    ensures recs[i].slot != slot
  {
    if i < |recs| - 1 { SlotLtTransitive(recs[i].slot, Last(recs).slot, slot); }
  }

  lemma NewNameIsFree(c: Config, dir: Directory, recs: seq<Rec>, slot: Slot)
    requires Holds(c, dir, recs) && Recognised(slot) && (recs != [] ==> SlotLt(Last(recs).slot, slot))
    ensures FileName(c.prefix, slot) !in dir
  {
    var name := FileName(c.prefix, slot);
    OwnNameReadsBack(c.prefix, slot);
    if name in dir {
      assert name in OwnNames(dir, c.prefix);
      var i := NamedSlot(c, dir, recs, name);
      LaterSlotIsNew(recs, slot, i);
    }
  }

  lemma NewNameIsOwn(dir: Directory, prefix: string, name: string)
    requires IsOwn(name, prefix)
    ensures OwnNames(dir[name := []], prefix) == OwnNames(dir, prefix) + {name}
  {
  }

  lemma OldFileStands(dir: Directory, rec: Rec, name: string)
    requires Stands(dir, rec) && name !in dir
    ensures Stands(dir[name := []], rec)
  {
  }

  lemma NamesMore(recs: seq<Rec>, rec: Rec, names: set<string>)
    requires Lists(Names(recs), names)
    ensures Lists(Names(recs + [rec]), names + {rec.name})
  {
    assert Names(recs + [rec]) == Names(recs) + [rec.name];
  }

  lemma NewFileStands(c: Config, dir: Directory, recs: seq<Rec>, rec: Rec)
    requires Holds(c, dir, recs) && Named(c, rec) && rec.chunks == []
    requires Ascending(recs + [rec]) && rec.name !in dir
    ensures Holds(c, dir[rec.name := []], recs + [rec])
  {
    NewNameIsOwn(dir, c.prefix, rec.name);
    NamesMore(recs, rec, OwnNames(dir, c.prefix));
    forall i | 0 <= i < |recs| ensures Stands(dir[rec.name := []], recs[i]) {
      OldFileStands(dir, recs[i], rec.name);
    }
    assert Stands(dir[rec.name := []], rec);
  }

  lemma OpenShows(c: Config, l: Log, recs: seq<Rec>, slot: Slot)
    requires Holds(c, l.dir, recs) && Recognised(slot) && Reachable(c, recs, slot)
    ensures Shows(c, OpenAt(c, l, slot), Touch(c, recs, slot)) && OpenAt(c, l, slot).active.Some?
  {
    TouchAscends(c, recs, slot);
    if recs != [] && Last(recs).slot == slot {
      assert Stands(l.dir, Last(recs));
    } else {
      NewNameIsFree(c, l.dir, recs, slot);
      OwnNameReadsBack(c.prefix, slot);
      NewFileStands(c, l.dir, recs, NewRec(c, slot));
    }
  }

  // ----------------------------------------------------------------- retention

  ghost predicate NoTies(names: set<string>, le: (string, string) -> bool) {
    forall m, n | m in names && n in names && le(m, n) && le(n, m) :: m == n
  }

  lemma {:induction false} SamePrefix(a: seq<string>, b: seq<string>, names: set<string>,
                                      le: (string, string) -> bool, i: nat)
    requires Lists(a, names) && Lists(b, names) && SortedBy(a, le) && SortedBy(b, le)
    requires NoTies(names, le)
    requires i <= |a| && i <= |b|
    ensures a[..i] == b[..i]
  {
    if i > 0 {
      var k := i - 1;
      SamePrefix(a, b, names, le, k);
      assert forall j :: 0 <= j < k ==> a[j] == a[..k][j] == b[..k][j] == b[j];
      assert a[k] in names && b[k] in names;
      var p :| 0 <= p < |b| && b[p] == a[k];
      var q :| 0 <= q < |a| && a[q] == b[k];
      assert p >= k && q >= k;
      assert a[k] == b[k];
      assert a[..i] == a[..k] + [a[k]] && b[..i] == b[..k] + [b[k]];
    }
  }

  lemma SameOrder(a: seq<string>, b: seq<string>, names: set<string>, le: (string, string) -> bool)
    requires Lists(a, names) && Lists(b, names) && SortedBy(a, le) && SortedBy(b, le) && NoTies(names, le)
    ensures a == b
  {
    SplitCounts(a, names, 0);
    SplitCounts(b, names, 0);
    SamePrefix(a, b, names, le, |a|);
    assert a[..|a|] == a && b[..|b|] == b;
  }

  lemma OneIndex(recs: seq<Rec>, i: nat, j: nat)
    requires Ascending(recs) && i < |recs| && j < |recs| && recs[i].slot == recs[j].slot
    ensures i == j
  {
  }

  lemma SameSlotSameName(c: Config, dir: Directory, recs: seq<Rec>, m: string, n: string)
    requires Holds(c, dir, recs) && m in OwnNames(dir, c.prefix) && n in OwnNames(dir, c.prefix)
    requires SlotOf(m, c.prefix) == SlotOf(n, c.prefix)
    ensures m == n
  {
    var i := NamedSlot(c, dir, recs, m);
    var j := NamedSlot(c, dir, recs, n);
    OneIndex(recs, i, j);
  }

  lemma OneNameToASlot(c: Config, dir: Directory, recs: seq<Rec>)
    requires Holds(c, dir, recs)
    ensures NoTies(OwnNames(dir, c.prefix), ByAge(c.prefix))
  {
    var (own, le) := (OwnNames(dir, c.prefix), ByAge(c.prefix));
    forall m, n | m in own && n in own && le(m, n) && le(n, m) ensures m == n {
      SlotLeAntisymmetric(SlotOf(m, c.prefix), SlotOf(n, c.prefix));
      SameSlotSameName(c, dir, recs, m, n);
    }
  }

  lemma NamesAreSorted(c: Config, dir: Directory, recs: seq<Rec>)
    requires Holds(c, dir, recs)
    ensures SortedBy(Names(recs), ByAge(c.prefix))
  {
    var (names, le) := (Names(recs), ByAge(c.prefix));
    forall i, j | 0 <= i < j < |names| ensures names[i] != names[j] && le(names[i], names[j]) {
      assert Named(c, recs[i]) && Named(c, recs[j]);
    }
  }

  /** With one name to a slot, retention sees the files in the order of the list. */
  lemma OrderIsTheList(c: Config, dir: Directory, recs: seq<Rec>, files: seq<string>)
    requires Holds(c, dir, recs) && AgeOrder(files, OwnNames(dir, c.prefix), c.prefix)
    ensures files == Names(recs)
  {
    NamesAreSorted(c, dir, recs);
    OneNameToASlot(c, dir, recs);
    SameOrder(files, Names(recs), OwnNames(dir, c.prefix), ByAge(c.prefix));
  }

  lemma DroppedFilesLeave(c: Config, dir: Directory, recs: seq<Rec>, k: nat)
    requires Holds(c, dir, recs) && k <= |recs|
    ensures Holds(c, dir - Elements(Names(recs)[..k]), recs[k..])
  {
    var (names, kept) := (Names(recs), recs[k..]);
    var dir' := dir - Elements(names[..k]);
    NamesAreSorted(c, dir, recs);
    SplitCounts(names, OwnNames(dir, c.prefix), k);
    OwnAfterRemoval(dir, c.prefix, Elements(names[..k]));
    assert Names(kept) == names[k..];
    assert Lists(names[k..], Elements(names[k..]));
    forall i | 0 <= i < |kept| ensures Stands(dir', kept[i]) {
      assert kept[i] == recs[k + i] && Stands(dir, recs[k + i]);
      assert names[k..][i] == kept[i].name;
      assert names[k..][i] in Elements(names[k..]);
    }
  }

  lemma LastIsSpared(names: seq<string>, k: nat)
    requires Distinct(names) && k < |names|
    ensures Elements(names[..k]) - {names[|names| - 1]} == Elements(names[..k])
  {
  }

  /** Retention removes the oldest of the list, and the open file is not among them. */
  lemma PruneDropsOldest(c: Config, l: Log, recs: seq<Rec>, l': Log)
    requires Clamped(c) && Shows(c, l, recs) && l.active.Some? && Pruned(c, l, l')
    ensures var k := Excess(|recs|, c.maxFiles);
      k < |recs| && l'.dir == l.dir - Elements(Names(recs)[..k]) && l'.active == l.active
  {
    var files, k := Retention(c, l, l');
    OrderIsTheList(c, l.dir, recs, files);
    LastIsSpared(files, k);
    assert ActiveNames(c, l) == {files[|files| - 1]};
  }

  lemma PruneShows(c: Config, l: Log, recs: seq<Rec>, l': Log)
    requires Clamped(c) && Shows(c, l, recs) && l.active.Some? && Pruned(c, l, l')
    ensures Shows(c, l', DropOldest(c, recs)) && l'.active.Some?
  {
    var k := Excess(|recs|, c.maxFiles);
    PruneDropsOldest(c, l, recs, l');
    DroppedFilesLeave(c, l.dir, recs, k);
    LastOfRest(recs, k);
  }

  lemma LastOfRest(recs: seq<Rec>, k: nat)
    requires k < |recs|
    ensures recs[k..] != [] && Last(recs[k..]) == Last(recs)
  {
  }

  lemma VisitShows(c: Config, l: Log, recs: seq<Rec>, slot: Slot, l': Log)
    requires Clamped(c) && Holds(c, l.dir, recs) && Recognised(slot) && Reachable(c, recs, slot)
    requires Opens(c, l, slot, l')
    ensures Shows(c, l', Visit(c, recs, slot)) && l'.active.Some?
    ensures Visit(c, recs, slot) != [] && Last(Visit(c, recs, slot)).slot == slot
  {
    OpenShows(c, l, recs, slot);
    TouchAscends(c, recs, slot);
    PruneShows(c, OpenAt(c, l, slot), Touch(c, recs, slot), l');
  }

  // ------------------------------------------------------------------- one step

  /** The day may be entered: no file is dated later, and none is ahead on this day. */
  ghost predicate MayEnter(c: Config, recs: seq<Rec>, isOpen: bool, stamp: string) {
    if isOpen then recs != [] && StringLe(Last(recs).slot.stamp, stamp) else Reachable(c, recs, Slot(stamp, 0))
  }

  lemma NoneOfALaterDay(c: Config, dir: Directory, recs: seq<Rec>, stamp: string, name: string)
    requires Holds(c, dir, recs) && recs != [] && StringLe(Last(recs).slot.stamp, stamp)
    requires Last(recs).slot.stamp != stamp && name in OwnNames(dir, c.prefix)
    ensures SlotOf(name, c.prefix).stamp != stamp
  {
    var i := NamedSlot(c, dir, recs, name);
    if i < |recs| - 1 && recs[i].slot.stamp == stamp {
      assert SlotLt(recs[i].slot, Last(recs).slot);
      StringLeAntisymmetric(recs[i].slot.stamp, Last(recs).slot.stamp);
    }
  }

  lemma NewDayStartsAtZero(c: Config, dir: Directory, recs: seq<Rec>, stamp: string, next: nat)
    requires Holds(c, dir, recs) && recs != [] && StringLe(Last(recs).slot.stamp, stamp)
    requires Last(recs).slot.stamp != stamp && IsNextIndex(dir, c.prefix, stamp, next)
    ensures next == 0 && SlotLt(Last(recs).slot, Slot(stamp, 0))
  {
    forall n ensures !OfDay(dir, c.prefix, stamp, n) {
      if OfDay(dir, c.prefix, stamp, n) {
        NoneOfALaterDay(c, dir, recs, stamp, n);
      }
    }
  }

  lemma EnterShows(c: Config, l: Log, recs: seq<Rec>, stamp: string, l': Log)
    requires Clamped(c) && Shows(c, l, recs) && Dated(stamp) && MayEnter(c, recs, l.active.Some?, stamp)
    requires Entered(c, l, stamp, l')
    ensures var recs' := EnterDay(c, recs, l.active.Some?, stamp);
      && Shows(c, l', recs') && l'.active.Some? && recs' != [] && Last(recs').slot.stamp == stamp
  {
    match l.active
    case None =>
      VisitShows(c, l, recs, Slot(stamp, 0), l');
    case Some(f) =>
      if f.slot.stamp != stamp {
        var next :| IsNextIndex(l.dir, c.prefix, stamp, next) && Opens(c, l, Slot(stamp, next), l');
        NewDayStartsAtZero(c, l.dir, recs, stamp, next);
        VisitShows(c, l, recs, Slot(stamp, 0), l');
      }
  }

  lemma NextSlotIsLater(slot: Slot)
    requires slot.index <= U32_MAX
    ensures NextSlot(slot) == slot || SlotLt(slot, NextSlot(slot))
  {
    StringLeTotal(slot.stamp, slot.stamp);
  }

  lemma FullMeansFull(c: Config, recs: seq<Rec>, pending: nat)
    requires recs != []
    ensures LastIsFull(c, recs, pending) <==> IsFull(c, OpenFile(Last(recs).slot, Measure(Size(Last(recs)))), pending)
  {
  }

  lemma OwnIndexFits(c: Config, rec: Rec)
    requires Named(c, rec)
    ensures rec.slot.index <= U32_MAX
  {
  }

  lemma RollShows(c: Config, l: Log, recs: seq<Rec>, pending: nat, l': Log)
    requires Clamped(c) && Shows(c, l, recs) && l.active.Some? && Rolled(c, l, pending, l')
    requires Dated(Last(recs).slot.stamp)
    ensures Shows(c, l', RollOver(c, recs, pending)) && l'.active.Some?
    ensures RollOver(c, recs, pending) != [] && Last(RollOver(c, recs, pending)).slot.stamp == Last(recs).slot.stamp
  {
    FullMeansFull(c, recs, pending);
    if LastIsFull(c, recs, pending) {
      assert Named(c, Last(recs));
      OwnIndexFits(c, Last(recs));
      NextSlotIsLater(Last(recs).slot);
      VisitShows(c, l, recs, NextSlot(Last(recs).slot), l');
    }
  }

  lemma BytesOnce(chunks: seq<seq<byte>>, buf: seq<byte>)
    ensures Bytes(chunks + [buf]) == Bytes(chunks) + buf
  {
    assert (chunks + [buf])[..|chunks|] == chunks;
  }

  lemma SameNamesOwned(dir: Directory, dir': Directory, prefix: string)
    requires dir.Keys == dir'.Keys
    ensures OwnNames(dir', prefix) == OwnNames(dir, prefix)
  {
  }

  lemma PutSlots(recs: seq<Rec>, buf: seq<byte>)
    requires recs != []
    ensures forall i :: 0 <= i < |recs| ==> Put(recs, buf)[i].slot == recs[i].slot
    ensures Names(Put(recs, buf)) == Names(recs) && Last(Put(recs, buf)).name == Last(recs).name
    ensures Ascending(recs) ==> Ascending(Put(recs, buf))
    ensures Size(Last(Put(recs, buf))) == Size(Last(recs)) + |buf|
  {
    BytesOnce(Last(recs).chunks, buf);
  }

  lemma OneFileStands(c: Config, dir: Directory, recs: seq<Rec>, buf: seq<byte>, i: nat)
    requires Holds(c, dir, recs) && i < |recs|
    ensures var name := Last(recs).name;
      name in dir && Stands(dir[name := dir[name] + buf], Put(recs, buf)[i]) && Named(c, Put(recs, buf)[i])
  {
    assert Stands(dir, recs[i]) && Stands(dir, Last(recs)) && Named(c, recs[i]);
    if i < |recs| - 1 {
      NamesAreSorted(c, dir, recs);
      assert Names(recs)[i] != Names(recs)[|recs| - 1];
    } else {
      BytesOnce(Last(recs).chunks, buf);
    }
  }

  lemma PutStands(c: Config, dir: Directory, recs: seq<Rec>, buf: seq<byte>)
    requires Holds(c, dir, recs) && recs != []
    ensures var name := Last(recs).name;
      name in dir && Holds(c, dir[name := dir[name] + buf], Put(recs, buf))
  {
    var name := Last(recs).name;
    PutSlots(recs, buf);
    assert Stands(dir, Last(recs));
    SameNamesOwned(dir, dir[name := dir[name] + buf], c.prefix);
    forall i | 0 <= i < |recs|
      ensures Named(c, Put(recs, buf)[i]) && Stands(dir[name := dir[name] + buf], Put(recs, buf)[i])
    {
      OneFileStands(c, dir, recs, buf, i);
    }
  }

  lemma AppendShows(c: Config, l: Log, recs: seq<Rec>, buf: seq<byte>)
    requires Shows(c, l, recs) && l.active.Some? && Tracks(c, l)
    ensures Shows(c, Append(c, l, buf), Put(recs, buf))
  {
    PutStands(c, l.dir, recs, buf);
    PutSlots(recs, buf);
  }

  lemma PreparedShows(c: Config, l: Log, recs: seq<Rec>, stamp: string, pending: nat, l': Log)
    requires Clamped(c) && Shows(c, l, recs) && Dated(stamp) && MayEnter(c, recs, l.active.Some?, stamp)
    requires Prepared(c, l, stamp, pending, l')
    ensures var recs' := MakeReady(c, recs, l.active.Some?, stamp, pending);
      && Shows(c, l', recs') && l'.active.Some? && recs' != [] && Last(recs').slot.stamp == stamp
  {
    var mid :| Entered(c, l, stamp, mid) && Rolled(c, mid, pending, l');
    EnterShows(c, l, recs, stamp, mid);
    RollShows(c, mid, EnterDay(c, recs, l.active.Some?, stamp), pending, l');
  }

  /** Writing into the directory is writing to the end of the list. */
  lemma WrittenShows(c: Config, l: Log, recs: seq<Rec>, stamp: string, buf: seq<byte>, l': Log)
    requires Clamped(c) && Shows(c, l, recs) && Dated(stamp) && MayEnter(c, recs, l.active.Some?, stamp)
    requires Written(c, l, stamp, buf, l') && buf != []
    ensures var ready := MakeReady(c, recs, l.active.Some?, stamp, |buf|);
      && ready != [] && Last(ready).slot.stamp == stamp && l'.active.Some?
      && Shows(c, l', Put(ready, buf))
  {
    var ready :| Prepared(c, l, stamp, |buf|, ready) && ready.active.Some? && Tracks(c, ready)
      && l' == Append(c, ready, buf);
    PreparedShows(c, l, recs, stamp, |buf|, ready);
    AppendShows(c, ready, MakeReady(c, recs, l.active.Some?, stamp, |buf|), buf);
  }
}
