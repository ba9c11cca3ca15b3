/** What a reader of the log directory can rely on after every run of the appender. */
module LogPromises {
  import opened Wrappers
  import opened Text
  import opened LogNames
  import opened LogWriter
  import opened LogRetention
  import opened LogRuns

  predicate IsSuffix<T(==)>(a: seq<T>, b: seq<T>) {
    |a| <= |b| && forall i :: 0 <= i < |a| ==> a[i] == b[|b| - |a| + i]
  }

  /** Within the limit, or one write that is larger than the limit by itself. */
  predicate Fits(c: Config, rec: Rec) {
    Measure(Size(rec)) <= c.maxBytes || |rec.chunks| == 1
  }

  /** Every file created in this run fits, unless its day has used up the indices. */
  ghost predicate Sized(c: Config, recs: seq<Rec>) {
    forall i :: 0 <= i < |recs| && recs[i].created && recs[i].slot.index < U32_MAX ==> Fits(c, recs[i])
  }

  predicate NoEmptyWrite(rec: Rec) {
    rec.created ==> [] !in rec.chunks
  }

  /** The second file was begun because the first one had no room for what came next. */
  predicate NotEarly(c: Config, a: Rec, b: Rec, pending: nat) {
    b.created && b.slot.stamp == a.slot.stamp ==>
      Size(a) > 0 && Measure(Size(a) + (if b.chunks == [] then pending else |b.chunks[0]|)) > c.maxBytes
  }

  ghost predicate Tight(c: Config, recs: seq<Rec>, pending: nat) {
    forall i, j :: 0 <= i < j < |recs| && j == i + 1 ==>
      NotEarly(c, recs[i], recs[j], if j == |recs| - 1 then pending else 0)
  }

  /** The files hold the newest of everything there was; any loss means the limit is used up. */
  predicate HoldsNewest(c: Config, recs: seq<Rec>, all: seq<seq<byte>>) {
    IsSuffix(AllChunks(recs), all) && (AllChunks(recs) == all || |recs| >= c.maxFiles)
  }

  ghost predicate Keeps(c: Config, all: seq<seq<byte>>, recs: seq<Rec>, pending: nat) {
    && Ascending(recs) && Sized(c, recs) && Tight(c, recs, pending) && HoldsNewest(c, recs, all)
    && forall i :: 0 <= i < |recs| ==> NoEmptyWrite(recs[i])
  }

  lemma AllChunksOnce(recs: seq<Rec>, rec: Rec)
    ensures AllChunks(recs + [rec]) == AllChunks(recs) + rec.chunks
  {
    assert (recs + [rec])[..|recs|] == recs;
  }

  lemma {:induction false} AllChunksSplit(a: seq<Rec>, b: seq<Rec>)
    ensures AllChunks(a + b) == AllChunks(a) + AllChunks(b)
    decreases |b|
  {
    if b == [] {
      assert a + b == a;
    } else {
      var (init, rec) := (b[..|b| - 1], b[|b| - 1]);
      assert b == init + [rec];
      Associates(a, init, [rec]);
      AllChunksSplit(a, init);
      AllChunksOnce(a + init, rec);
      Associates(AllChunks(a), AllChunks(init), rec.chunks);
    }
  }

  lemma SuffixTail<T>(x: seq<T>, a: seq<T>, b: seq<T>)
    requires IsSuffix(x + a, b)
    ensures IsSuffix(a, b)
  {
    forall i | 0 <= i < |a| ensures a[i] == b[|b| - |a| + i] {
      assert (x + a)[|x| + i] == a[i];
    }
  }

  lemma SuffixGrows<T>(a: seq<T>, b: seq<T>, x: seq<T>)
    requires IsSuffix(a, b)
    ensures IsSuffix(a + x, b + x)
  {
  }

  lemma DroppedHoldsNewest(c: Config, all: seq<seq<byte>>, recs: seq<Rec>)
    requires HoldsNewest(c, recs, all)
    ensures HoldsNewest(c, DropOldest(c, recs), all)
  {
    var k := Excess(|recs|, c.maxFiles);
    assert recs == recs[..k] + recs[k..];
    AllChunksSplit(recs[..k], recs[k..]);
    SuffixTail(AllChunks(recs[..k]), AllChunks(recs[k..]), all);
    if k == 0 { assert recs[k..] == recs; }
  }

  lemma DropKeeps(c: Config, all: seq<seq<byte>>, recs: seq<Rec>, pending: nat)
    requires Clamped(c) && Keeps(c, all, recs, pending)
    ensures Keeps(c, all, DropOldest(c, recs), pending) && |DropOldest(c, recs)| <= c.maxFiles
  {
    DroppedHoldsNewest(c, all, recs);
    var k := Excess(|recs|, c.maxFiles);
    assert forall i :: 0 <= i < |recs| - k ==> recs[k..][i] == recs[k + i];
  }

  lemma NotEarlyGrows(c: Config, a: Rec, b: Rec, pending: nat)
    requires NotEarly(c, a, b, 0)
    ensures NotEarly(c, a, b, pending)
  {
  }

  /** Another file of the same day is opened only when the last one is full. */
  predicate RollsWhenFull(c: Config, recs: seq<Rec>, slot: Slot, pending: nat) {
    recs != [] && slot != Last(recs).slot && slot.stamp == Last(recs).slot.stamp ==> LastIsFull(c, recs, pending)
  }

  lemma TouchIsTight(c: Config, recs: seq<Rec>, slot: Slot, pending: nat)
    requires Tight(c, recs, 0)
    requires RollsWhenFull(c, recs, slot, pending)
    ensures Tight(c, Touch(c, recs, slot), pending)
  {
    var recs' := Touch(c, recs, slot);
    forall i, j | 0 <= i < j < |recs'| && j == i + 1
      ensures NotEarly(c, recs'[i], recs'[j], if j == |recs'| - 1 then pending else 0)
    {
      if j < |recs| {
        assert NotEarly(c, recs[i], recs[j], 0);
        NotEarlyGrows(c, recs[i], recs[j], pending);
      }
    }
  }

  lemma TouchIsSized(c: Config, recs: seq<Rec>, slot: Slot)
    requires Sized(c, recs) && forall i :: 0 <= i < |recs| ==> NoEmptyWrite(recs[i])
    ensures Sized(c, Touch(c, recs, slot))
    ensures forall i :: 0 <= i < |Touch(c, recs, slot)| ==> NoEmptyWrite(Touch(c, recs, slot)[i])
  {
    assert Bytes([]) == [];
  }

  lemma TouchHoldsNewest(c: Config, all: seq<seq<byte>>, recs: seq<Rec>, slot: Slot)
    requires HoldsNewest(c, recs, all)
    ensures HoldsNewest(c, Touch(c, recs, slot), all)
  {
    AllChunksOnce(recs, NewRec(c, slot));
    assert AllChunks(recs) + [] == AllChunks(recs);
  }

  lemma TouchKeeps(c: Config, all: seq<seq<byte>>, recs: seq<Rec>, slot: Slot, pending: nat)
    requires Keeps(c, all, recs, 0) && Reachable(c, recs, slot)
    requires RollsWhenFull(c, recs, slot, pending)
    ensures Keeps(c, all, Touch(c, recs, slot), pending)
  {
    TouchAscends(c, recs, slot);
    TouchIsTight(c, recs, slot, pending);
    TouchIsSized(c, recs, slot);
    TouchHoldsNewest(c, all, recs, slot);
  }

  /** Opening a later file, or the same one again, keeps everything. */
  lemma VisitKeeps(c: Config, all: seq<seq<byte>>, recs: seq<Rec>, slot: Slot, pending: nat)
    requires Clamped(c) && Keeps(c, all, recs, 0) && Reachable(c, recs, slot)
    requires RollsWhenFull(c, recs, slot, pending)
    ensures Keeps(c, all, Visit(c, recs, slot), pending) && 0 < |Visit(c, recs, slot)| <= c.maxFiles
    ensures Last(Visit(c, recs, slot)) == Last(Touch(c, recs, slot))
  {
    TouchKeeps(c, all, recs, slot, pending);
    TouchAscends(c, recs, slot);
    DropKeeps(c, all, Touch(c, recs, slot), pending);
    LastOfRest(Touch(c, recs, slot), Excess(|Touch(c, recs, slot)|, c.maxFiles));
  }

  lemma EnterKeeps(c: Config, all: seq<seq<byte>>, recs: seq<Rec>, isOpen: bool, stamp: string)
    requires Clamped(c) && Keeps(c, all, recs, 0) && MayEnter(c, recs, isOpen, stamp)
    requires isOpen ==> |recs| <= c.maxFiles && Canonical(c, recs)
    ensures var recs' := EnterDay(c, recs, isOpen, stamp);
      && Keeps(c, all, recs', 0) && 0 < |recs'| <= c.maxFiles
      && Canonical(c, recs') && Last(recs').slot.stamp == stamp
  {
    if !(isOpen && recs != [] && Last(recs).slot.stamp == stamp) {
      VisitKeeps(c, all, recs, Slot(stamp, 0), 0);
      TouchAscends(c, recs, Slot(stamp, 0));
    }
  }

  /** The last file is an old one, the day's very last, still empty, or has room for what comes next. */
  predicate HasRoom(c: Config, recs: seq<Rec>, pending: nat) {
    recs != [] && (!Last(recs).created || Last(recs).slot.index >= U32_MAX || Size(Last(recs)) == 0
      || Measure(Size(Last(recs)) + pending) <= c.maxBytes)
  }

  lemma RollKeeps(c: Config, all: seq<seq<byte>>, recs: seq<Rec>, pending: nat)
    requires Clamped(c) && Keeps(c, all, recs, 0) && 0 < |recs| <= c.maxFiles
    requires Canonical(c, recs) && Last(recs).slot.index <= U32_MAX
    ensures var recs' := RollOver(c, recs, pending);
      && Keeps(c, all, recs', pending) && 0 < |recs'| <= c.maxFiles && HasRoom(c, recs', pending)
      && Last(recs').slot.stamp == Last(recs).slot.stamp
  {
    if LastIsFull(c, recs, pending) {
      var slot := NextSlot(Last(recs).slot);
      NextSlotIsLater(Last(recs).slot);
      VisitKeeps(c, all, recs, slot, pending);
      TouchAscends(c, recs, slot);
      assert Bytes([]) == [];
    } else {
      TouchIsTight(c, recs, Last(recs).slot, pending);
    }
  }

  lemma ChunksShow(chunks: seq<seq<byte>>)
    requires [] !in chunks
    ensures chunks != [] ==> Bytes(chunks) != []
  {
    if chunks != [] { assert chunks[|chunks| - 1] in chunks; }
  }

  lemma PutInOneFile(c: Config, rec: Rec, buf: seq<byte>)
    requires NoEmptyWrite(rec) && buf != [] && rec.created
    requires Size(rec) == 0 || Measure(Size(rec) + |buf|) <= c.maxBytes
    ensures Fits(c, rec.(chunks := rec.chunks + [buf])) && NoEmptyWrite(rec.(chunks := rec.chunks + [buf]))
  {
    BytesOnce(rec.chunks, buf);
    ChunksShow(rec.chunks);
  }

  lemma PutChunks(recs: seq<Rec>, buf: seq<byte>)
    requires recs != []
    ensures AllChunks(Put(recs, buf)) == AllChunks(recs) + [buf]
  {
    var init := recs[..|recs| - 1];
    assert Put(recs, buf)[..|recs| - 1] == init;
    assert AllChunks(init) + (Last(recs).chunks + [buf]) == AllChunks(init) + Last(recs).chunks + [buf];
  }

  lemma PutIsTight(c: Config, recs: seq<Rec>, buf: seq<byte>)
    requires Tight(c, recs, |buf|) && recs != []
    ensures Tight(c, Put(recs, buf), 0)
  {
    var (n, recs') := (|recs| - 1, Put(recs, buf));
    forall i, j | 0 <= i < j <= n && j == i + 1 ensures NotEarly(c, recs'[i], recs'[j], 0) {
      assert recs'[i] == recs[i];
      assert NotEarly(c, recs[i], recs[j], if j == n then |buf| else 0);
      if j == n { assert recs'[n].chunks[0] == if recs[n].chunks == [] then buf else recs[n].chunks[0]; }
    }
  }

  lemma PutIsSized(c: Config, recs: seq<Rec>, buf: seq<byte>, i: nat)
    requires Sized(c, recs) && HasRoom(c, recs, |buf|) && buf != [] && i < |recs| && NoEmptyWrite(recs[i])
    ensures NoEmptyWrite(Put(recs, buf)[i])
    ensures Put(recs, buf)[i].created && recs[i].slot.index < U32_MAX ==> Fits(c, Put(recs, buf)[i])
  {
    if i == |recs| - 1 && recs[i].created && recs[i].slot.index < U32_MAX {
      PutInOneFile(c, recs[i], buf);
    }
  }

  /** A write goes whole to the end of the newest file, and everything is kept. */
  lemma PutKeeps(c: Config, all: seq<seq<byte>>, recs: seq<Rec>, buf: seq<byte>)
    requires Keeps(c, all, recs, |buf|) && HasRoom(c, recs, |buf|) && buf != []
    ensures Keeps(c, all + [buf], Put(recs, buf), 0)
  {
    PutChunks(recs, buf);
    SuffixGrows(AllChunks(recs), all, [buf]);
    PutSlots(recs, buf);
    PutIsTight(c, recs, buf);
    forall i | 0 <= i < |recs|
      ensures NoEmptyWrite(Put(recs, buf)[i])
      ensures Put(recs, buf)[i].created && recs[i].slot.index < U32_MAX ==> Fits(c, Put(recs, buf)[i])
    {
      PutIsSized(c, recs, buf, i);
    }
  }

  // --------------------------------------------------------------------- runs

  /** What the program asks of the appender, with the day the clock reports. */
  datatype Call = Open(stamp: string) | Write(stamp: string, buf: seq<byte>)

  ghost predicate Stepped(c: Config, l: Log, call: Call, l': Log) {
    match call
    case Open(stamp) => Prepared(c, l, stamp, 0, l')
    case Write(stamp, buf) => Written(c, l, stamp, buf, l')
  }

  /** A run: the directory it starts on, and the state after each call. */
  datatype Run = Begin(dir: Directory) | Then(before: Run, call: Call, log: Log)

  function End(run: Run): Log {
    match run
    case Begin(dir) => Log(dir, None)
    case Then(_, _, log) => log
  }

  function Calls(run: Run): seq<Call> {
    match run
    case Begin(_) => []
    case Then(before, call, _) => Calls(before) + [call]
  }

  function StartOf(run: Run): Directory {
    match run
    case Begin(dir) => dir
    case Then(before, _, _) => StartOf(before)
  }

  ghost predicate Happens(c: Config, run: Run) {
    match run
    case Begin(_) => true
    case Then(before, call, log) => Happens(c, before) && Stepped(c, End(before), call, log)
  }

  /** The buffers written, in order; an empty one is no write. */
  function WrittenBy(calls: seq<Call>): seq<seq<byte>>
    decreases |calls|
  {
    if calls == [] then []
    else
      var before, call := WrittenBy(calls[..|calls| - 1]), calls[|calls| - 1];
      if call.Write? && call.buf != [] then before + [call.buf] else before
  }

  predicate NoEarlier(before: string, stamp: string) {
    StringLe(before, stamp)
  }

  /** The clock reports dates, and never goes back a day. */
  ghost predicate ClockRuns(calls: seq<Call>) {
    && (forall i :: 0 <= i < |calls| ==> Dated(calls[i].stamp))
    && (forall i, j :: 0 <= i < j < |calls| ==> NoEarlier(calls[i].stamp, calls[j].stamp))
  }

  /** The files of earlier runs, as one buffer each. */
  ghost predicate Start(c: Config, dir: Directory, past: seq<Rec>) {
    Holds(c, dir, past) && forall i :: 0 <= i < |past| ==> !past[i].created && |past[i].chunks| == 1
  }

  function Pending(call: Call): nat {
    match call
    case Open(_) => 0
    case Write(_, buf) => |buf|
  }

  predicate Idle(call: Call) {
    call.Write? && call.buf == []
  }

  /** The first call that opens a file. */
  function Opening(calls: seq<Call>): Option<Call>
    decreases |calls|
  {
    if calls == [] then None
    else
      var first := Opening(calls[..|calls| - 1]);
      if first.Some? || Idle(calls[|calls| - 1]) then first else Some(calls[|calls| - 1])
  }

  // ------------------------------------------------------ which files are new

  ghost predicate HasName(recs: seq<Rec>, name: string) {
    exists i :: 0 <= i < |recs| && recs[i].name == name
  }

  ghost predicate TaggedAt(past: seq<Rec>, rec: Rec) {
    rec.created <==> !HasName(past, rec.name)
  }

  /** The files marked as created are those the run did not start with, and none is older than those. */
  ghost predicate Tagged(past: seq<Rec>, recs: seq<Rec>) {
    && (forall i :: 0 <= i < |recs| ==> TaggedAt(past, recs[i]))
    && (past != [] ==> recs != [] && SlotLe(Last(past).slot, Last(recs).slot))
  }

  /** Recognised names in order of their slots. */
  ghost predicate Ordered(c: Config, past: seq<Rec>) {
    Ascending(past) && forall i :: 0 <= i < |past| ==> Named(c, past[i])
  }

  lemma SlotLeLt(a: Slot, b: Slot, d: Slot)
    requires SlotLe(a, b) && SlotLt(b, d)
    ensures SlotLt(a, d)
  {
    SlotLeTransitive(a, b, d);
    if a == d { SlotLeAntisymmetric(b, d); }
  }

  lemma LaterNameIsNew(c: Config, past: seq<Rec>, slot: Slot)
    requires Ordered(c, past) && Recognised(slot) && (past != [] ==> SlotLt(Last(past).slot, slot))
    ensures !HasName(past, FileName(c.prefix, slot))
  {
    OwnNameReadsBack(c.prefix, slot);
    forall i | 0 <= i < |past| ensures past[i].name != FileName(c.prefix, slot) {
      LaterSlotIsNew(past, slot, i);
      assert Named(c, past[i]);
    }
  }

  lemma TouchTags(c: Config, past: seq<Rec>, recs: seq<Rec>, slot: Slot)
    requires Ordered(c, past) && Tagged(past, recs) && Recognised(slot) && Reachable(c, recs, slot)
    ensures Tagged(past, Touch(c, recs, slot))
  {
    if recs == [] {
      LaterNameIsNew(c, past, slot);
    } else if Last(recs).slot != slot {
      if past != [] { SlotLeLt(Last(past).slot, Last(recs).slot, slot); }
      LaterNameIsNew(c, past, slot);
    }
    forall i | 0 <= i < |Touch(c, recs, slot)| ensures TaggedAt(past, Touch(c, recs, slot)[i]) {
      if i < |recs| { assert TaggedAt(past, recs[i]); }
    }
  }

  lemma DropTags(c: Config, past: seq<Rec>, recs: seq<Rec>)
    requires Clamped(c) && Tagged(past, recs)
    ensures Tagged(past, DropOldest(c, recs))
  {
    var k := Excess(|recs|, c.maxFiles);
    forall i | 0 <= i < |recs[k..]| ensures TaggedAt(past, recs[k..][i]) {
      assert TaggedAt(past, recs[k + i]);
    }
    if recs != [] { assert Last(recs[k..]) == Last(recs); }
  }

  lemma VisitTags(c: Config, past: seq<Rec>, recs: seq<Rec>, slot: Slot)
    requires Clamped(c) && Ordered(c, past) && Tagged(past, recs) && Recognised(slot) && Reachable(c, recs, slot)
    ensures Tagged(past, Visit(c, recs, slot))
  {
    TouchTags(c, past, recs, slot);
    DropTags(c, past, Touch(c, recs, slot));
  }

  lemma EnterTags(c: Config, past: seq<Rec>, recs: seq<Rec>, isOpen: bool, stamp: string)
    requires Clamped(c) && Ordered(c, past) && Tagged(past, recs)
    requires Dated(stamp) && MayEnter(c, recs, isOpen, stamp)
    ensures Tagged(past, EnterDay(c, recs, isOpen, stamp))
  {
    if !(isOpen && recs != [] && Last(recs).slot.stamp == stamp) {
      VisitTags(c, past, recs, Slot(stamp, 0));
    }
  }

  lemma RollTags(c: Config, past: seq<Rec>, recs: seq<Rec>, pending: nat)
    requires Clamped(c) && Ordered(c, past) && Tagged(past, recs)
    requires Canonical(c, recs) && Recognised(Last(recs).slot)
    ensures Tagged(past, RollOver(c, recs, pending))
  {
    NextSlotIsLater(Last(recs).slot);
    if LastIsFull(c, recs, pending) { VisitTags(c, past, recs, NextSlot(Last(recs).slot)); }
  }

  lemma PutTags(past: seq<Rec>, recs: seq<Rec>, buf: seq<byte>)
    requires Tagged(past, recs) && recs != []
    ensures Tagged(past, Put(recs, buf))
  {
    forall i | 0 <= i < |recs| ensures TaggedAt(past, Put(recs, buf)[i]) {
      assert TaggedAt(past, recs[i]);
    }
  }

  // ------------------------------------------------- a file made ready to be written to

  /** What a call leaves open: a file of its day, with room for what is pending. */
  ghost predicate Ready(c: Config, past: seq<Rec>, all: seq<seq<byte>>, l: Log, recs: seq<Rec>,
                        stamp: string, pending: nat)
  {
    && Shows(c, l, recs) && l.active.Some? && Keeps(c, all, recs, pending) && Tagged(past, recs)
    && 0 < |recs| <= c.maxFiles && HasRoom(c, recs, pending) && Last(recs).slot.stamp == stamp
  }

  /** The state a call is made in, with the list of files that goes with it. */
  ghost predicate Known(c: Config, past: seq<Rec>, all: seq<seq<byte>>, l: Log, recs: seq<Rec>) {
    && Shows(c, l, recs) && Keeps(c, all, recs, 0) && Ordered(c, past) && Tagged(past, recs)
    && (l.active.Some? ==> |recs| <= c.maxFiles)
  }

  lemma LastIndexFits(c: Config, recs: seq<Rec>, isOpen: bool, stamp: string)
    requires Clamped(c) && (recs != [] ==> Last(recs).slot.index <= U32_MAX)
    ensures var day := EnterDay(c, recs, isOpen, stamp); day != [] ==> Last(day).slot.index <= U32_MAX
  {
  }

  lemma MadeReady(c: Config, past: seq<Rec>, all: seq<seq<byte>>, l: Log, recs: seq<Rec>,
                  stamp: string, pending: nat, l': Log)
    returns (ready: seq<Rec>)
    requires Clamped(c) && Known(c, past, all, l, recs) && Dated(stamp) && MayEnter(c, recs, l.active.Some?, stamp)
    requires Prepared(c, l, stamp, pending, l')
    ensures Ready(c, past, all, l', ready, stamp, pending)
  {
    var day := EnterDay(c, recs, l.active.Some?, stamp);
    ready := MakeReady(c, recs, l.active.Some?, stamp, pending);
    PreparedShows(c, l, recs, stamp, pending, l');
    EnterKeeps(c, all, recs, l.active.Some?, stamp);
    EnterTags(c, past, recs, l.active.Some?, stamp);
    if recs != [] { OwnIndexFits(c, Last(recs)); }
    LastIndexFits(c, recs, l.active.Some?, stamp);
    RollKeeps(c, all, day, pending);
    RollTags(c, past, day, pending);
  }

  // ------------------------------- a restart after today's first file was filled up

  /** The two newest files are today's first, which is full, and today's second. */
  predicate SecondIsOpen(c: Config, past: seq<Rec>, stamp: string, pending: nat) {
    && |past| >= 2 && Last(past).slot == Slot(stamp, 1) && Canonical(c, past)
    && past[|past| - 2].slot == Slot(stamp, 0) && past[|past| - 2].name == FileName(c.prefix, Slot(stamp, 0))
    && IsFull(c, OpenFile(Slot(stamp, 0), Measure(Size(past[|past| - 2]))), pending)
  }

  lemma SparedIsNotCounted(names: seq<string>, k: nat, i: nat)
    requires Distinct(names) && i < |names| && k <= i + 1
    ensures Elements(names[..k]) - {names[i]} == Elements(names[..if k <= i then k else i])
  {
    if k == i + 1 {
      assert names[..k] == names[..i] + [names[i]];
    }
  }

  lemma FirstIsFound(c: Config, l: Log, past: seq<Rec>, stamp: string, pending: nat)
    requires Holds(c, l.dir, past) && SecondIsOpen(c, past, stamp, pending)
    ensures OpenAt(c, l, Slot(stamp, 0))
         == Log(l.dir, Some(OpenFile(Slot(stamp, 0), Measure(Size(past[|past| - 2])))))
  {
    assert Stands(l.dir, past[|past| - 2]);
  }

  /** Opening today's full first file spares it and removes the oldest of the others. */
  lemma FirstIsOpened(c: Config, l: Log, past: seq<Rec>, stamp: string, pending: nat, mid: Log)
    requires Clamped(c) && Holds(c, l.dir, past) && SecondIsOpen(c, past, stamp, pending)
    requires Opens(c, l, Slot(stamp, 0), mid)
    ensures var (n, k) := (|past|, Excess(|past|, c.maxFiles));
      Holds(c, mid.dir, past[if k <= n - 2 then k else n - 2..])
    ensures mid.active == Some(OpenFile(Slot(stamp, 0), Measure(Size(past[|past| - 2]))))
  {
    var n := |past|;
    FirstIsFound(c, l, past, stamp, pending);
    var files, k := Retention(c, OpenAt(c, l, Slot(stamp, 0)), mid);
    OrderIsTheList(c, l.dir, past, files);
    SparedIsNotCounted(files, k, n - 2);
    DroppedFilesLeave(c, l.dir, past, if k <= n - 2 then k else n - 2);
  }

  lemma DropTwice(c: Config, past: seq<Rec>, j: nat)
    requires Clamped(c) && |past| >= 2
    requires j == if Excess(|past|, c.maxFiles) <= |past| - 2 then Excess(|past|, c.maxFiles) else |past| - 2
    ensures DropOldest(c, past[j..]) == DropOldest(c, past)
  {
  }

  lemma FirstCallPhases(c: Config, dir: Directory, stamp: string, pending: nat, l': Log) returns (mid: Log)
    requires Prepared(c, Log(dir, None), stamp, pending, l')
    ensures Opens(c, Log(dir, None), Slot(stamp, 0), mid) && Rolled(c, mid, pending, l')
  {
    mid :| Entered(c, Log(dir, None), stamp, mid) && Rolled(c, mid, pending, l');
  }

  lemma FullFileRolls(c: Config, mid: Log, stamp: string, written: nat, pending: nat, l': Log)
    requires mid.active == Some(OpenFile(Slot(stamp, 0), written)) && IsFull(c, mid.active.value, pending)
    requires Rolled(c, mid, pending, l')
    ensures Opens(c, mid, Slot(stamp, 1), l')
  {
  }

  /** The one roll of the first call then leads to today's second file, the newest there is. */
  lemma SecondIsEntered(c: Config, dir: Directory, past: seq<Rec>, stamp: string, pending: nat, l': Log)
    requires Clamped(c) && Dated(stamp) && Holds(c, dir, past) && SecondIsOpen(c, past, stamp, pending)
    requires Prepared(c, Log(dir, None), stamp, pending, l')
    ensures Shows(c, l', DropOldest(c, past)) && l'.active.Some?
  {
    var mid := FirstCallPhases(c, dir, stamp, pending, l');
    var k := Excess(|past|, c.maxFiles);
    var j := if k <= |past| - 2 then k else |past| - 2;
    FirstIsOpened(c, Log(dir, None), past, stamp, pending, mid);
    FullFileRolls(c, mid, stamp, Measure(Size(past[|past| - 2])), pending, l');
    assert Last(past[j..]) == Last(past);
    VisitShows(c, mid, past[j..], Slot(stamp, 1), l');
    DropTwice(c, past, j);
  }

  lemma LastIsOldKeeps(c: Config, all: seq<seq<byte>>, recs: seq<Rec>, pending: nat)
    requires Keeps(c, all, recs, 0) && recs != [] && !Last(recs).created
    ensures Keeps(c, all, recs, pending)
  {
  }

  lemma RestartedReady(c: Config, dir: Directory, past: seq<Rec>, all: seq<seq<byte>>,
                       stamp: string, pending: nat, l': Log)
    requires Clamped(c) && Dated(stamp) && Known(c, past, all, Log(dir, None), past) && Start(c, dir, past)
    requires SecondIsOpen(c, past, stamp, pending) && Prepared(c, Log(dir, None), stamp, pending, l')
    ensures Ready(c, past, all, l', DropOldest(c, past), stamp, pending)
  {
    var left := DropOldest(c, past);
    SecondIsEntered(c, dir, past, stamp, pending, l');
    DropKeeps(c, all, past, 0);
    DropTags(c, past, past);
    assert Last(left) == Last(past);
    LastIsOldKeeps(c, all, left, pending);
  }

  // ------------------------------------------------------------------ one call

  /** The day's files are spelled as the appender would spell them. */
  ghost predicate SpelledAsMade(dir: Directory, prefix: string, stamp: string) {
    forall n :: n in OwnNames(dir, prefix) && SlotOf(n, prefix).stamp == stamp ==>
      n == FileName(prefix, SlotOf(n, prefix))
  }

  /** The directory holds nothing newer than the file the first call goes to, and no misspelt file of its day. */
  ghost predicate MayBegin(c: Config, dir: Directory, call: Call) {
    && NothingAfter(dir, c.prefix, FirstSlot(c, dir, call.stamp, Pending(call)))
    && SpelledAsMade(dir, c.prefix, call.stamp)
  }

  ghost predicate MayCall(c: Config, dir: Directory, past: seq<Rec>, l: Log, recs: seq<Rec>, call: Call) {
    if l.active.Some? then recs != [] && NoEarlier(Last(recs).slot.stamp, call.stamp)
    else l == Log(dir, None) && recs == past && Start(c, dir, past) && MayBegin(c, dir, call)
  }

  lemma RecIsListed(c: Config, dir: Directory, past: seq<Rec>, i: nat)
    requires Holds(c, dir, past) && i < |past|
    ensures past[i].name in OwnNames(dir, c.prefix) && SlotOf(past[i].name, c.prefix) == past[i].slot
    ensures dir[past[i].name] == Bytes(past[i].chunks)
  {
    assert Named(c, past[i]) && Stands(dir, past[i]);
  }

  lemma NewestIsNoLater(c: Config, dir: Directory, past: seq<Rec>, slot: Slot)
    requires Holds(c, dir, past) && NothingAfter(dir, c.prefix, slot) && past != []
    ensures SlotLe(Last(past).slot, slot)
  {
    RecIsListed(c, dir, past, |past| - 1);
  }

  lemma NameIsListed(c: Config, dir: Directory, past: seq<Rec>, name: string)
    requires Holds(c, dir, past) && IsOwn(name, c.prefix)
    ensures name in dir <==> HasName(past, name)
  {
    if name in dir {
      assert name in OwnNames(dir, c.prefix);
      var i := NamedSlot(c, dir, past, name);
    }
    if HasName(past, name) {
      var i :| 0 <= i < |past| && past[i].name == name;
      RecIsListed(c, dir, past, i);
    }
  }

  lemma BetweenFirstAndSecond(past: seq<Rec>, stamp: string, i: nat)
    requires Ascending(past) && i < |past| && past[i].slot == Slot(stamp, 0) && Last(past).slot == Slot(stamp, 1)
    ensures i == |past| - 2
  {
    if i < |past| - 2 {
      var middle := past[|past| - 2].slot;
      assert SlotLt(past[i].slot, middle) && SlotLt(middle, Last(past).slot);
      StringLeAntisymmetric(stamp, middle.stamp);
    }
  }

  /** The newest file is today's second, or the day can be entered at its first. */
  lemma NewestToday(c: Config, dir: Directory, past: seq<Rec>, call: Call)
    requires Holds(c, dir, past) && Dated(call.stamp) && MayBegin(c, dir, call) && past != []
    requires !MayEnter(c, past, false, call.stamp)
    ensures FirstSlot(c, dir, call.stamp, Pending(call)) == Slot(call.stamp, 1)
    ensures Last(past).slot == Slot(call.stamp, 1) && Canonical(c, past)
  {
    var stamp := call.stamp;
    NewestIsNoLater(c, dir, past, FirstSlot(c, dir, stamp, Pending(call)));
    RecIsListed(c, dir, past, |past| - 1);
    StringLeTotal(stamp, stamp);
  }

  lemma SecondNeedsFullFirst(c: Config, dir: Directory, stamp: string, pending: nat)
    requires FirstSlot(c, dir, stamp, pending) == Slot(stamp, 1)
    ensures var name := FileName(c.prefix, Slot(stamp, 0));
      name in dir && IsFull(c, OpenFile(Slot(stamp, 0), Measure(|dir[name]|)), pending)
  {
  }

  lemma FirstIsListed(c: Config, dir: Directory, past: seq<Rec>, stamp: string) returns (i: nat)
    requires Holds(c, dir, past) && Dated(stamp) && FileName(c.prefix, Slot(stamp, 0)) in dir
    ensures i < |past| && past[i].name == FileName(c.prefix, Slot(stamp, 0)) && past[i].slot == Slot(stamp, 0)
    ensures dir[past[i].name] == Bytes(past[i].chunks)
  {
    OwnNameReadsBack(c.prefix, Slot(stamp, 0));
    assert FileName(c.prefix, Slot(stamp, 0)) in OwnNames(dir, c.prefix);
    i := NamedSlot(c, dir, past, FileName(c.prefix, Slot(stamp, 0)));
    RecIsListed(c, dir, past, i);
  }

  lemma BeginsEitherWay(c: Config, dir: Directory, past: seq<Rec>, call: Call)
    requires Holds(c, dir, past) && Dated(call.stamp) && MayBegin(c, dir, call)
    ensures MayEnter(c, past, false, call.stamp) || SecondIsOpen(c, past, call.stamp, Pending(call))
  {
    if past != [] && !MayEnter(c, past, false, call.stamp) {
      NewestToday(c, dir, past, call);
      SecondNeedsFullFirst(c, dir, call.stamp, Pending(call));
      var i := FirstIsListed(c, dir, past, call.stamp);
      BetweenFirstAndSecond(past, call.stamp, i);
    }
  }

  lemma CallIsReady(c: Config, dir: Directory, past: seq<Rec>, all: seq<seq<byte>>, l: Log, recs: seq<Rec>,
                    call: Call, l': Log)
    returns (ready: seq<Rec>)
    requires Clamped(c) && Known(c, past, all, l, recs) && Dated(call.stamp) && MayCall(c, dir, past, l, recs, call)
    requires Prepared(c, l, call.stamp, Pending(call), l')
    ensures Ready(c, past, all, l', ready, call.stamp, Pending(call))
  {
    if l.active.None? {
      BeginsEitherWay(c, dir, past, call);
    }
    if MayEnter(c, recs, l.active.Some?, call.stamp) {
      ready := MadeReady(c, past, all, l, recs, call.stamp, Pending(call), l');
    } else {
      ready := DropOldest(c, past);
      RestartedReady(c, dir, past, all, call.stamp, Pending(call), l');
    }
  }

  /** After a call that opened or wrote, the newest file is one of that call's day. */
  ghost predicate UpToDate(c: Config, past: seq<Rec>, all: seq<seq<byte>>, l: Log, recs: seq<Rec>, stamp: string) {
    && Known(c, past, all, l, recs) && l.active.Some?
    && recs != [] && NoEarlier(Last(recs).slot.stamp, stamp)
  }

  function Extended(all: seq<seq<byte>>, call: Call): seq<seq<byte>> {
    if call.Write? && !Idle(call) then all + [call.buf] else all
  }

  lemma WriteKeeps(c: Config, past: seq<Rec>, all: seq<seq<byte>>, ready: Log, recs: seq<Rec>,
                   stamp: string, buf: seq<byte>)
    requires Ordered(c, past) && Ready(c, past, all, ready, recs, stamp, |buf|) && Tracks(c, ready) && buf != []
    ensures UpToDate(c, past, all + [buf], Append(c, ready, buf), Put(recs, buf), stamp)
  {
    AppendShows(c, ready, recs, buf);
    PutKeeps(c, all, recs, buf);
    PutSlots(recs, buf);
    PutTags(past, recs, buf);
    StringLeTotal(stamp, stamp);
  }

  lemma CallKeeps(c: Config, dir: Directory, past: seq<Rec>, all: seq<seq<byte>>, l: Log, recs: seq<Rec>,
                  call: Call, l': Log)
    returns (recs': seq<Rec>)
    requires Clamped(c) && Known(c, past, all, l, recs) && Dated(call.stamp) && MayCall(c, dir, past, l, recs, call)
    requires Stepped(c, l, call, l') && !Idle(call)
    ensures UpToDate(c, past, Extended(all, call), l', recs', call.stamp)
  {
    match call
    case Open(stamp) =>
      recs' := CallIsReady(c, dir, past, all, l, recs, call, l');
      StringLeTotal(stamp, stamp);
    case Write(stamp, buf) =>
      var ready :| Prepared(c, l, stamp, |buf|, ready) && ready.active.Some? && Tracks(c, ready)
        && l' == Append(c, ready, buf);
      var list := CallIsReady(c, dir, past, all, l, recs, call, ready);
      WriteKeeps(c, past, all, ready, list, stamp, buf);
      recs' := Put(list, buf);
  }

  // --------------------------------------------------------------- the whole run

  /** Where the appender stands after the last of its calls. */
  ghost predicate InStep(c: Config, dir: Directory, past: seq<Rec>, calls: seq<Call>, l: Log, recs: seq<Rec>) {
    && Known(c, past, AllChunks(past) + WrittenBy(calls), l, recs)
    && if l.active.None? then l == Log(dir, None) && recs == past && Opening(calls) == None
       else calls != [] && recs != [] && NoEarlier(Last(recs).slot.stamp, calls[|calls| - 1].stamp)
  }

  /** The clock runs, and the first call that opens a file finds nothing newer than that file. */
  ghost predicate InTime(c: Config, dir: Directory, calls: seq<Call>) {
    ClockRuns(calls) && (Opening(calls).Some? ==> MayBegin(c, dir, Opening(calls).value))
  }

  lemma OldFilesKeep(c: Config, past: seq<Rec>)
    requires Ascending(past) && forall i :: 0 <= i < |past| ==> !past[i].created
    ensures Keeps(c, AllChunks(past), past, 0)
  {
  }

  lemma StartKeeps(c: Config, dir: Directory, past: seq<Rec>)
    requires Start(c, dir, past)
    ensures InStep(c, dir, past, [], Log(dir, None), past)
  {
    OldFilesKeep(c, past);
    assert AllChunks(past) + [] == AllChunks(past);
    StartTags(c, dir, past);
  }

  lemma StartTags(c: Config, dir: Directory, past: seq<Rec>)
    requires Start(c, dir, past)
    ensures Tagged(past, past)
  {
    forall i | 0 <= i < |past| ensures TaggedAt(past, past[i]) { assert HasName(past, past[i].name); }
    if past != [] { SlotLeTotal(Last(past).slot, Last(past).slot); }
  }

  lemma EarlierCalls(c: Config, dir: Directory, calls: seq<Call>, call: Call)
    requires InTime(c, dir, calls + [call])
    ensures InTime(c, dir, calls) && Dated(call.stamp)
    ensures calls != [] ==> NoEarlier(calls[|calls| - 1].stamp, call.stamp)
    ensures Opening(calls + [call]) == if Opening(calls).None? && !Idle(call) then Some(call) else Opening(calls)
  {
    var all := calls + [call];
    assert all[..|calls|] == calls && all[|calls|] == call;
    assert forall i :: 0 <= i < |calls| ==> all[i] == calls[i];
  }

  lemma MayStep(c: Config, dir: Directory, past: seq<Rec>, calls: seq<Call>, call: Call, l: Log, recs: seq<Rec>)
    requires Start(c, dir, past) && InTime(c, dir, calls + [call]) && InStep(c, dir, past, calls, l, recs)
    requires !Idle(call)
    ensures MayCall(c, dir, past, l, recs, call)
  {
    EarlierCalls(c, dir, calls, call);
    if l.active.Some? {
      StringLeTransitive(Last(recs).slot.stamp, calls[|calls| - 1].stamp, call.stamp);
    }
  }

  lemma HistoryGrows(past: seq<Rec>, calls: seq<Call>, call: Call)
    ensures AllChunks(past) + WrittenBy(calls + [call]) == Extended(AllChunks(past) + WrittenBy(calls), call)
  {
    assert (calls + [call])[..|calls|] == calls;
  }

  lemma IdleKeeps(c: Config, dir: Directory, past: seq<Rec>, calls: seq<Call>, call: Call, l: Log, recs: seq<Rec>)
    requires InTime(c, dir, calls + [call]) && InStep(c, dir, past, calls, l, recs) && Idle(call)
    ensures InStep(c, dir, past, calls + [call], l, recs)
  {
    EarlierCalls(c, dir, calls, call);
    HistoryGrows(past, calls, call);
    if l.active.Some? {
      StringLeTransitive(Last(recs).slot.stamp, calls[|calls| - 1].stamp, call.stamp);
    }
  }

  lemma BusyKeeps(c: Config, dir: Directory, past: seq<Rec>, calls: seq<Call>, call: Call, l: Log,
                  recs: seq<Rec>, l': Log)
    returns (recs': seq<Rec>)
    requires Clamped(c) && Start(c, dir, past) && InTime(c, dir, calls + [call]) && InStep(c, dir, past, calls, l, recs)
    requires Stepped(c, l, call, l') && !Idle(call)
    ensures InStep(c, dir, past, calls + [call], l', recs')
  {
    EarlierCalls(c, dir, calls, call);
    MayStep(c, dir, past, calls, call, l, recs);
    recs' := CallKeeps(c, dir, past, AllChunks(past) + WrittenBy(calls), l, recs, call, l');
    HistoryGrows(past, calls, call);
  }

  lemma {:induction false} RunKeeps(c: Config, past: seq<Rec>, run: Run) returns (recs: seq<Rec>)
    requires Clamped(c) && Start(c, StartOf(run), past) && InTime(c, StartOf(run), Calls(run)) && Happens(c, run)
    ensures InStep(c, StartOf(run), past, Calls(run), End(run), recs)
  {
    match run
    case Begin(dir) =>
      StartKeeps(c, dir, past);
      recs := past;
    case Then(before, call, log) =>
      var (dir, calls) := (StartOf(run), Calls(before));
      EarlierCalls(c, dir, calls, call);
      recs := RunKeeps(c, past, before);
      if Idle(call) {
        IdleKeeps(c, dir, past, calls, call, log, recs);
      } else {
        recs := BusyKeeps(c, dir, past, calls, call, End(before), recs, log);
      }
  }

  // -------------------------------------------------------------- the main result

  /** No two recognised names stand for the same date and index. */
  ghost predicate OneNameEach(dir: Directory, prefix: string) {
    NoTies(OwnNames(dir, prefix), ByAge(prefix))
  }

  /**
   One name to a slot, and the directory is not ahead of the clock: it holds nothing newer
   than the file that the first call goes to, which is today's first file, or today's second
   if the first is full. Only the files of that day must be spelled as the appender would.
   */
  ghost predicate Suitable(c: Config, dir: Directory, calls: seq<Call>) {
    OneNameEach(dir, c.prefix) && InTime(c, dir, calls)
  }

  /** The files marked as created are the ones the run did not start with. */
  ghost predicate MarksNewFiles(start: Directory, recs: seq<Rec>) {
    forall i :: 0 <= i < |recs| ==> (recs[i].created <==> recs[i].name !in start)
  }

  /** What the directory shows: `recs` are its own files, oldest first. */
  ghost predicate Promised(c: Config, start: Directory, l: Log, recs: seq<Rec>, all: seq<seq<byte>>) {
    && Holds(c, l.dir, recs) && 0 < |recs| <= c.maxFiles && MarksNewFiles(start, recs)
    && l.active.Some? && l.active.value.slot == Last(recs).slot
    && Sized(c, recs) && Tight(c, recs, 0) && HoldsNewest(c, recs, all)
  }

  function RecOf(c: Config, dir: Directory, name: string): Rec {
    Rec(name, SlotOf(name, c.prefix), [if name in dir then dir[name] else []], false)
  }

  lemma EarlierFiles(c: Config, dir: Directory) returns (past: seq<Rec>)
    requires OneNameEach(dir, c.prefix)
    ensures Start(c, dir, past)
  {
    ByAgeIsTotal(c.prefix);
    var (own, le) := (OwnNames(dir, c.prefix), ByAge(c.prefix));
    var files := Listing(own, le);
    past := seq(|files|, i requires 0 <= i < |files| => RecOf(c, dir, files[i]));
    forall i | 0 <= i < |past| ensures Named(c, past[i]) && Stands(dir, past[i]) {
      assert files[i] in own;
      BytesOnce([], dir[files[i]]);
      assert [] + [dir[files[i]]] == [dir[files[i]]];
    }
    forall i, j | 0 <= i < j < |past| ensures SlotLt(past[i].slot, past[j].slot) {
      assert files[i] in own && files[j] in own && files[i] != files[j] && le(files[i], files[j]);
      assert !le(files[j], files[i]);
    }
    assert Names(past) == files;
  }

  /**
   In every run on a suitable directory: at most the permitted number of own files is left,
   the open one is the newest, every file of this run is within the limit or holds a single
   write, no file was begun while its predecessor had room, and the files together hold,
   oldest first and with no write split between two, the newest of the old contents and
   the writes; nothing is missing from them unless the permitted number is used up.
   */
  lemma LogKeepsTheNewest(c: Config, run: Run) returns (past: seq<Rec>, recs: seq<Rec>)
    requires Clamped(c) && Happens(c, run) && Suitable(c, StartOf(run), Calls(run)) && End(run).active.Some?
    ensures Start(c, StartOf(run), past)
    ensures Promised(c, StartOf(run), End(run), recs, AllChunks(past) + WrittenBy(Calls(run)))
  {
    past := EarlierFiles(c, StartOf(run));
    recs := RunKeeps(c, past, run);
    forall i | 0 <= i < |recs| ensures recs[i].created <==> recs[i].name !in StartOf(run) {
      assert TaggedAt(past, recs[i]) && Named(c, recs[i]);
      NameIsListed(c, StartOf(run), past, recs[i].name);
    }
  }

  lemma {:induction false} BytesSplit(a: seq<seq<byte>>, b: seq<seq<byte>>)
    ensures Bytes(a + b) == Bytes(a) + Bytes(b)
    decreases |b|
  {
    if b == [] {
      assert a + b == a;
    } else {
      var (init, buf) := (b[..|b| - 1], b[|b| - 1]);
      assert b == init + [buf];
      Associates(a, init, [buf]);
      BytesSplit(a, init);
      BytesOnce(a + init, buf);
      Associates(Bytes(a), Bytes(init), buf);
    }
  }

  lemma SuffixIsDrop<T>(a: seq<T>, b: seq<T>)
    ensures IsSuffix(a, b) <==> |a| <= |b| && a == b[|b| - |a|..]
  {
  }

  lemma SuffixBytes(a: seq<seq<byte>>, b: seq<seq<byte>>)
    requires IsSuffix(a, b)
    ensures IsSuffix(Bytes(a), Bytes(b))
  {
    var k := |b| - |a|;
    SuffixIsDrop(a, b);
    assert b == b[..k] + a;
    BytesSplit(b[..k], a);
    SuffixIsDrop(Bytes(a), Bytes(b));
  }

  /** Read as one text, the files that are left end the text of everything that was logged. */
  lemma LogIsTheTailOfTheText(c: Config, run: Run) returns (past: seq<Rec>, recs: seq<Rec>)
    requires Clamped(c) && Happens(c, run) && Suitable(c, StartOf(run), Calls(run)) && End(run).active.Some?
    ensures Start(c, StartOf(run), past) && Holds(c, End(run).dir, recs)
    ensures IsSuffix(Bytes(AllChunks(recs)), Bytes(AllChunks(past)) + Bytes(WrittenBy(Calls(run))))
  {
    past, recs := LogKeepsTheNewest(c, run);
    BytesSplit(AllChunks(past), WrittenBy(Calls(run)));
    SuffixBytes(AllChunks(recs), AllChunks(past) + WrittenBy(Calls(run)));
  }

  // ------------------------------------------------- what holds on any directory

  ghost predicate OpenIsOwn(l: Log) {
    l.active.Some? ==> Recognised(l.active.value.slot)
  }

  /** A file whose name is not recognised is there, and as it was. */
  ghost predicate Spared(dir: Directory, dir': Directory, name: string) {
    (name in dir <==> name in dir') && (name in dir ==> dir'[name] == dir[name])
  }

  lemma OpensSpares(c: Config, l: Log, slot: Slot, l': Log, name: string)
    requires Opens(c, l, slot, l') && Recognised(slot) && !IsOwn(name, c.prefix)
    ensures Spared(l.dir, l'.dir, name) && OpenIsOwn(l')
  {
    OwnNameReadsBack(c.prefix, slot);
    var mid := OpenAt(c, l, slot);
    var files, k := Retention(c, mid, l');
    if name in mid.dir { PruneSpares(c, mid, l', name); }
  }

  lemma EnteredSpares(c: Config, l: Log, stamp: string, l': Log, name: string)
    requires Entered(c, l, stamp, l') && Dated(stamp) && OpenIsOwn(l) && !IsOwn(name, c.prefix)
    ensures Spared(l.dir, l'.dir, name) && OpenIsOwn(l')
  {
    match l.active
    case None => OpensSpares(c, l, Slot(stamp, 0), l', name);
    case Some(f) =>
      if f.slot.stamp != stamp {
        var next :| IsNextIndex(l.dir, c.prefix, stamp, next) && Opens(c, l, Slot(stamp, next), l');
        OpensSpares(c, l, Slot(stamp, next), l', name);
      }
  }

  lemma PreparedSpares(c: Config, l: Log, stamp: string, pending: nat, l': Log, name: string)
    requires Prepared(c, l, stamp, pending, l') && Dated(stamp) && OpenIsOwn(l) && !IsOwn(name, c.prefix)
    ensures Spared(l.dir, l'.dir, name) && OpenIsOwn(l')
  {
    var mid :| Entered(c, l, stamp, mid) && Rolled(c, mid, pending, l');
    EnteredSpares(c, l, stamp, mid, name);
    var f := mid.active;
    if f.Some? && IsFull(c, f.value, pending) {
      OpensSpares(c, mid, NextSlot(f.value.slot), l', name);
    }
  }

  lemma StepSpares(c: Config, l: Log, call: Call, l': Log, name: string)
    requires Stepped(c, l, call, l') && Dated(call.stamp) && OpenIsOwn(l) && !IsOwn(name, c.prefix)
    ensures Spared(l.dir, l'.dir, name) && OpenIsOwn(l')
  {
    match call
    case Open(stamp) => PreparedSpares(c, l, stamp, 0, l', name);
    case Write(stamp, buf) =>
      if buf != [] {
        var ready :| Prepared(c, l, stamp, |buf|, ready) && ready.active.Some? && Tracks(c, ready)
          && l' == Append(c, ready, buf);
        PreparedSpares(c, l, stamp, |buf|, ready, name);
        OwnNameReadsBack(c.prefix, ready.active.value.slot);
      }
  }

  /** Whatever the directory holds and however the clock jumps, other programs' files stay as they are. */
  lemma {:induction false} OtherFilesAreSpared(c: Config, run: Run, name: string)
    requires Happens(c, run) && !IsOwn(name, c.prefix)
    requires forall i :: 0 <= i < |Calls(run)| ==> Dated(Calls(run)[i].stamp)
    ensures Spared(StartOf(run), End(run).dir, name) && OpenIsOwn(End(run))
  {
    match run
    case Begin(_) =>
    case Then(before, call, log) =>
      assert Calls(run)[|Calls(before)|] == call;
      assert forall i :: 0 <= i < |Calls(before)| ==> Calls(run)[i] == Calls(before)[i];
      OtherFilesAreSpared(c, before, name);
      StepSpares(c, End(before), call, log, name);
  }

  /** Once a day's last index is reached its file takes every further write of that day, at any size. */
  lemma LastIndexNeverRolls(c: Config, l: Log, stamp: string, buf: seq<byte>, l': Log)
    requires Clamped(c) && Dated(stamp) && buf != [] && Tracks(c, l) && Written(c, l, stamp, buf, l')
    requires l.active.Some? && l.active.value.slot == Slot(stamp, U32_MAX)
    ensures var name := FileName(c.prefix, Slot(stamp, U32_MAX));
      name in l.dir && name in l'.dir && l'.dir[name] == l.dir[name] + buf && l'.active.Some?
      && l'.active.value.slot == Slot(stamp, U32_MAX)
  {
    var slot := Slot(stamp, U32_MAX);
    var ready :| Prepared(c, l, stamp, |buf|, ready) && ready.active.Some? && Tracks(c, ready)
      && l' == Append(c, ready, buf);
    var mid :| Entered(c, l, stamp, mid) && Rolled(c, mid, |buf|, ready);
    assert mid == l;
    if IsFull(c, l.active.value, |buf|) {
      OwnNameReadsBack(c.prefix, slot);
      PruneSpares(c, OpenAt(c, l, slot), ready, FileName(c.prefix, slot));
    }
  }
}
