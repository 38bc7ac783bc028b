/** Reading a complete file through its summary gives the same timeline input
    as walking its records. */
module IndexPath {
  import opened Spans
  import opened Leak
  import opened Conservation
  import opened Feed
  import opened Scan
  import opened ScanLayout

  // ---------------------------------------------------------------- sorting by offset

  function InsertBy<T>(key: T -> nat, s: seq<T>, x: T): (r: seq<T>)
    ensures multiset(r) == multiset(s) + multiset{x}
  {
    if |s| == 0 || key(s[|s| - 1]) <= key(x) then s + [x]
    else
      assert s == s[..|s| - 1] + [s[|s| - 1]];
      InsertBy(key, s[..|s| - 1], x) + [s[|s| - 1]]
  }

  /** Stable sort by key. */
  function SortBy<T>(key: T -> nat, s: seq<T>): (r: seq<T>)
    ensures multiset(r) == multiset(s)
  {
    if |s| == 0 then []
    else
      assert s == s[..|s| - 1] + [s[|s| - 1]];
      InsertBy(key, SortBy(key, s[..|s| - 1]), s[|s| - 1])
  }

  predicate SortedBy<T>(key: T -> nat, s: seq<T>) {
    forall i, j :: 0 <= i < j < |s| ==> key(s[i]) <= key(s[j])
  }

  predicate IncreasingBy<T>(key: T -> nat, s: seq<T>) {
    forall i, j :: 0 <= i < j < |s| ==> key(s[i]) < key(s[j])
  }

  lemma InsertSorted<T>(key: T -> nat, s: seq<T>, x: T)
    requires SortedBy(key, s)
    ensures SortedBy(key, InsertBy(key, s, x))
    ensures forall y <- InsertBy(key, s, x) :: y == x || y in s
  {
    if |s| > 0 && key(s[|s| - 1]) > key(x) {
      var inner := InsertBy(key, s[..|s| - 1], x);
      InsertSorted(key, s[..|s| - 1], x);
      forall i | 0 <= i < |inner|
        ensures key(inner[i]) <= key(s[|s| - 1])
      {
        assert inner[i] in inner;
      }
    }
  }

  lemma SortSorts<T>(key: T -> nat, s: seq<T>)
    ensures SortedBy(key, SortBy(key, s))
  {
    if |s| > 0 {
      SortSorts(key, s[..|s| - 1]);
      InsertSorted(key, SortBy(key, s[..|s| - 1]), s[|s| - 1]);
    }
  }

  lemma LastIsGreatest<T>(key: T -> nat, a: seq<T>, x: T)
    requires SortedBy(key, a) && x in a
    ensures key(x) <= key(a[|a| - 1])
  {
  }

  lemma LastIsStrictlyGreatest<T>(key: T -> nat, b: seq<T>, x: T)
    requires IncreasingBy(key, b) && x in b
    ensures x == b[|b| - 1] || key(x) < key(b[|b| - 1])
  {
  }

  lemma LastIsLast<T>(key: T -> nat, a: seq<T>, b: seq<T>)
    requires SortedBy(key, a) && IncreasingBy(key, b) && multiset(a) == multiset(b) && |a| == |b| > 0
    ensures a[|a| - 1] == b[|b| - 1]
  {
    hide SortedBy, IncreasingBy;
    var x, y := a[|a| - 1], b[|b| - 1];
    assert x in multiset(b) && y in multiset(a);
    LastIsGreatest(key, a, y);
    LastIsStrictlyGreatest(key, b, x);
  }

  lemma Inits<T>(key: T -> nat, a: seq<T>, b: seq<T>)
    requires SortedBy(key, a) && IncreasingBy(key, b) && |a| > 0 && |b| > 0
    ensures SortedBy(key, a[..|a| - 1]) && IncreasingBy(key, b[..|b| - 1])
  {
  }

  lemma MultisetInit<T>(s: seq<T>)
    requires |s| > 0
    ensures multiset(s[..|s| - 1]) == multiset(s) - multiset{s[|s| - 1]}
  {
    assert s == s[..|s| - 1] + [s[|s| - 1]];
  }

  /** A sorted permutation of a list with increasing keys is that list. */
  lemma SortedUnique<T>(key: T -> nat, a: seq<T>, b: seq<T>)
    requires SortedBy(key, a) && IncreasingBy(key, b) && multiset(a) == multiset(b)
    ensures a == b
  {
    hide SortedBy, IncreasingBy;
    assert |a| == |multiset(a)| == |multiset(b)| == |b|;
    if |a| > 0 {
      var n := |a| - 1;
      LastIsLast(key, a, b);
      MultisetInit(a);
      MultisetInit(b);
      Inits(key, a, b);
      SortedUnique(key, a[..n], b[..n]);
      assert a == a[..n] + [a[n]] && b == b[..n] + [b[n]];
    }
  }

  lemma SortRestores<T>(key: T -> nat, shuffled: seq<T>, original: seq<T>)
    requires multiset(shuffled) == multiset(original) && IncreasingBy(key, original)
    ensures SortBy(key, shuffled) == original
  {
    SortSorts(key, shuffled);
    SortedUnique(key, SortBy(key, shuffled), original);
  }

  // ---------------------------------------------------------------- the summary

  datatype MetadataIndex = MetadataIndex(offset: nat, name: string)

  /** The summary's indexes, in whatever order it lists them. */
  datatype Summary = Summary(chunkIndexes: seq<ChunkIndex>, metadataIndexes: seq<MetadataIndex>)

  /** The metadata record at an offset of the data section. */
  function MetadataAt(groups: seq<Group>, offset: nat): Option<Record> {
    if |groups| == 0 then None
    else if groups[0].Single? && groups[0].placed.offset == offset && groups[0].placed.record.Metadata?
    then Some(groups[0].placed.record)
    else MetadataAt(groups[1..], offset)
  }

  /** The clock step an index leads to, if any. */
  function IndexedStep(groups: seq<Group>, index: MetadataIndex): seq<ClockStep> {
    if index.name != CLOCK_STEP then []
    else match MetadataAt(groups, index.offset)
      case Some(Metadata(name, stepNs)) =>
        (match StepFrom(index.offset, name, stepNs)
         case Some(step) => [step]
         case None => [])
      case _ => []
  }

  function IndexedSteps(groups: seq<Group>, indexes: seq<MetadataIndex>): seq<ClockStep> {
    if |indexes| == 0 then [] else IndexedStep(groups, indexes[0]) + IndexedSteps(groups, indexes[1..])
  }

  /** The steps found are those of the clock-step records that an index of that name leads to,
      whatever else the indexes say. */
  lemma {:induction false} StepsFound(groups: seq<Group>, indexes: seq<MetadataIndex>, step: ClockStep)
    ensures step in IndexedSteps(groups, indexes) <==>
              exists i :: 0 <= i < |indexes| && LeadsToStep(groups, indexes[i], step)
  {
    hide IndexedStep, LeadsToStep;
    if |indexes| > 0 {
      StepsFound(groups, indexes[1..], step);
      OneFound(groups, indexes[0], step);
      assert forall i :: 0 < i < |indexes| ==> indexes[i] == indexes[1..][i - 1];
      if i :| 0 <= i < |indexes[1..]| && LeadsToStep(groups, indexes[1..][i], step) {
        assert LeadsToStep(groups, indexes[i + 1], step);
      }
    }
  }

  predicate LeadsToStep(groups: seq<Group>, index: MetadataIndex, step: ClockStep) {
    && index.name == "clock_step" && step.offset == index.offset
    && MetadataAt(groups, index.offset) == Some(Metadata("clock_step", Some(step.size)))
  }

  lemma OneFound(groups: seq<Group>, index: MetadataIndex, step: ClockStep)
    ensures step in IndexedStep(groups, index) <==> LeadsToStep(groups, index, step)
  {
  }

  function StepOffset(step: ClockStep): nat {
    step.offset
  }

  function ChunkOffset(chunk: ChunkIndex): nat {
    chunk.offset
  }

  /** Steps and chunks in offset order, a step going before the chunks after it. */
  function MergeEntries(chunks: seq<ChunkIndex>, steps: seq<ClockStep>): seq<Entry>
    decreases |chunks| + |steps|
  {
    if |chunks| == 0 then StepEntries(steps)
    else if |steps| > 0 && steps[0].offset < chunks[0].offset
    then [StepEntry(steps[0])] + MergeEntries(chunks, steps[1..])
    else [ChunkEntry(chunks[0])] + MergeEntries(chunks[1..], steps)
  }

  function StepEntries(steps: seq<ClockStep>): seq<Entry> {
    if |steps| == 0 then [] else [StepEntry(steps[0])] + StepEntries(steps[1..])
  }

  /** The entries read through the summary. */
  function IndexedEntries(groups: seq<Group>, summary: Summary): seq<Entry> {
    MergeEntries(SortBy(ChunkOffset, summary.chunkIndexes),
        SortBy(StepOffset, IndexedSteps(groups, summary.metadataIndexes)))
  }

  predicate IndexedSync(summary: Summary) {
    exists i :: 0 <= i < |summary.metadataIndexes| && summary.metadataIndexes[i].name == CLOCK_SYNC
  }

  lemma MergeStep(entries: seq<Entry>, chunks: seq<ChunkIndex>, steps: seq<ClockStep>)
    requires |steps| > 0 && (|chunks| > 0 ==> steps[0].offset < chunks[0].offset)
    ensures entries + [StepEntry(steps[0])] + MergeEntries(chunks, steps[1..]) == entries + MergeEntries(chunks, steps)
  {
  }

  lemma MergeChunk(entries: seq<Entry>, chunks: seq<ChunkIndex>, steps: seq<ClockStep>)
    requires |chunks| > 0 && (|steps| > 0 ==> steps[0].offset >= chunks[0].offset)
    ensures entries + [ChunkEntry(chunks[0])] + MergeEntries(chunks[1..], steps)
            == entries + MergeEntries(chunks, steps)
  {
  }

  /** The merge as it runs: before each chunk, the steps recorded before it. */
  method Merge(chunks: seq<ChunkIndex>, steps: seq<ClockStep>) returns (entries: seq<Entry>)
    ensures entries == MergeEntries(chunks, steps)
  {
    hide MergeEntries;
    entries := [];
    ghost var merged := MergeEntries(chunks, steps);
    assert chunks[0..] == chunks && steps[0..] == steps;
    var pending := 0;
    for c := 0 to |chunks|
      invariant pending <= |steps|
      invariant entries + MergeEntries(chunks[c..], steps[pending..]) == merged
    {
      while pending < |steps| && steps[pending].offset < chunks[c].offset
        invariant pending <= |steps|
        invariant entries + MergeEntries(chunks[c..], steps[pending..]) == merged
      {
        MergeStep(entries, chunks[c..], steps[pending..]);
        assert steps[pending..][1..] == steps[pending + 1..];
        entries := entries + [StepEntry(steps[pending])];
        pending := pending + 1;
      }
      MergeChunk(entries, chunks[c..], steps[pending..]);
      assert chunks[c..][1..] == chunks[c + 1..];
      entries := entries + [ChunkEntry(chunks[c])];
    }
    while pending < |steps|
      invariant pending <= |steps|
      invariant entries + MergeEntries([], steps[pending..]) == merged
    {
      MergeStep(entries, [], steps[pending..]);
      assert steps[pending..][1..] == steps[pending + 1..];
      entries := entries + [StepEntry(steps[pending])];
      pending := pending + 1;
    }
    MergeNothing();
    assert steps[pending..] == [];
  }

  lemma MergeNothing()
    ensures MergeEntries([], []) == []
  {
  }

  // ---------------------------------------------------------------- what the file holds

  function OffsetOf(g: Group): nat {
    match g
    case ChunkGroup(offset, _, _, _, _) => offset
    case Single(placed) => placed.offset
  }

  function GroupChunks(g: Group): seq<ChunkIndex> {
    if g.ChunkGroup? then [IndexOf(g)] else []
  }

  function GroupMetadata(g: Group): seq<MetadataIndex> {
    if g.Single? && g.placed.record.Metadata? then [MetadataIndex(g.placed.offset, g.placed.record.name)] else []
  }

  function GroupSteps(g: Group): seq<ClockStep> {
    if g.Single? && g.placed.record.Metadata? then
      match StepFrom(g.placed.offset, g.placed.record.name, g.placed.record.stepNs)
      case Some(step) => [step]
      case None => []
    else []
  }

  function ChunksOf(groups: seq<Group>): seq<ChunkIndex> {
    if |groups| == 0 then [] else GroupChunks(groups[0]) + ChunksOf(groups[1..])
  }

  function MetadataOf(groups: seq<Group>): seq<MetadataIndex> {
    if |groups| == 0 then [] else GroupMetadata(groups[0]) + MetadataOf(groups[1..])
  }

  function StepsOf(groups: seq<Group>): seq<ClockStep> {
    if |groups| == 0 then [] else GroupSteps(groups[0]) + StepsOf(groups[1..])
  }

  /** A complete file with no message outside a chunk, and none in a chunk without an index. */
  predicate FullyIndexed(groups: seq<Group>) {
    && ValidLayout(groups)
    && OffsetsIncrease(groups)
    && (forall g <- groups :: IndexedGroup(g))
  }

  predicate IndexedGroup(g: Group) {
    match g
    case ChunkGroup(_, _, _, _, marks) => |marks| > 0 || Silent(g)
    case Single(placed) => !placed.record.Message?
  }

  /** A chunk of other records than messages. */
  predicate Silent(g: Group) {
    g.ChunkGroup? && |g.marks| == 0 && TimesInside(g.contents) == [] && g.startTime == 0 && g.endTime == 0
  }

  predicate IsSync(g: Group) {
    g.Single? && g.placed.record.Metadata? && g.placed.record.name == CLOCK_SYNC
  }

  predicate HasSync(groups: seq<Group>) {
    exists i :: 0 <= i < |groups| && IsSync(groups[i])
  }

  /** The summary indexes exactly the chunks and the metadata of the file. */
  predicate Truthful(groups: seq<Group>, summary: Summary) {
    && multiset(summary.chunkIndexes) == multiset(ChunksOf(groups))
    && multiset(summary.metadataIndexes) == multiset(MetadataOf(groups))
  }

  function GroupEntries(g: Group): seq<Entry> {
    if g.ChunkGroup? then [ChunkEntry(IndexOf(g))] else StepEntries(GroupSteps(g))
  }

  function FileOrder(groups: seq<Group>): seq<Entry> {
    if |groups| == 0 then [] else GroupEntries(groups[0]) + FileOrder(groups[1..])
  }

  /** What the scan makes of a group: a chunk without messages has been opened. */
  function ScanEntries(g: Group): seq<Entry> {
    if Silent(g) then [MessagesEntry([])] else GroupEntries(g)
  }

  function ScanOrder(groups: seq<Group>): seq<Entry> {
    if |groups| == 0 then [] else ScanOrder(groups[..|groups| - 1]) + ScanEntries(groups[|groups| - 1])
  }

  // ---------------------------------------------------------------- entries without messages

  /** Entries that differ at most in how a chunk without messages is told. */
  predicate Alike(a: seq<Entry>, b: seq<Entry>) {
    |a| == |b| && forall i :: 0 <= i < |a| ==> SameEntry(a[i], b[i])
  }

  predicate SameEntry(x: Entry, y: Entry) {
    x == y || (x == MessagesEntry([]) && y.ChunkEntry? && NoMessages(y.chunk))
  }

  lemma AlikeTails(a: seq<Entry>, b: seq<Entry>, n: nat)
    requires Alike(a, b) && n <= |a|
    ensures Alike(a[n..], b[n..])
  {
  }

  lemma {:induction false} FirstAlike(a: seq<Entry>, b: seq<Entry>)
    requires Alike(a, b)
    ensures FirstLogTime(a) == FirstLogTime(b)
  {
    if |a| > 0 {
      assert SameEntry(a[0], b[0]);
      AlikeTails(a, b, 1);
      FirstAlike(a[1..], b[1..]);
    }
  }

  lemma StepsAlike(a: seq<Entry>, b: seq<Entry>)
    requires Alike(a, b) && |a| > 0
    ensures NextStep(a) == NextStep(b) && |a| == |b| && SameEntry(a[0], b[0])
    ensures NextStep(a).Some? ==> |a| > 1
  {
    if |a| > 1 {
      assert SameEntry(a[1], b[1]);
    }
    assert SameEntry(a[0], b[0]);
  }

  /** Feeding an entry without messages does nothing, with the record after it if there is one. */
  lemma FeedSilent(indexes: Indexes, f: Feeding, a: seq<Entry>, b: seq<Entry>)
    requires Alike(a, b) && |a| > 0 && a[0] != b[0]
    ensures FeedEntry(indexes, f, b) == f && !TakesNext(b)
    ensures match NextStep(a)
            case None => FeedEntry(indexes, f, a) == f && !TakesNext(a)
            case Some(step) => FeedEntry(indexes, f, a) == Call(f, Stepped(step.size)) && TakesNext(a)
    ensures NextStep(a).Some? ==>
              FeedEntry(indexes, f, b[1..]) == Call(f, Stepped(NextStep(a).value.size)) && !TakesNext(b[1..])
  {
    hide FirstLogTime, LeakSplit;
    StepsAlike(a, b);
    var none: seq<Stamp> := [];
    assert PushPoints(f, none) == f;
    if NextStep(a).Some? {
      var step := NextStep(a).value.size;
      assert none[..0] == none && none[0..] == none;
      assert PushPoints(Call(f, Stepped(step)), none) == Call(f, Stepped(step));
      assert b[1..][0] == StepEntry(NextStep(a).value);
    }
  }

  lemma FeedSame(indexes: Indexes, f: Feeding, a: seq<Entry>, b: seq<Entry>)
    requires Alike(a, b) && |a| > 0 && a[0] == b[0]
    ensures FeedEntry(indexes, f, a) == FeedEntry(indexes, f, b) && (TakesNext(a) <==> TakesNext(b))
  {
    hide FirstLogTime, FeedMessages, FeedChunk;
    StepsAlike(a, b);
    if NextStep(a).Some? {
      AlikeTails(a, b, 2);
      FirstAlike(a[2..], b[2..]);
    }
  }

  /** The timeline is fed alike, however chunks without messages are told. */
  lemma {:induction false} FeedAlike(indexes: Indexes, f: Feeding, a: seq<Entry>, b: seq<Entry>)
    requires Alike(a, b)
    ensures FeedAll(indexes, f, a) == FeedAll(indexes, f, b)
    decreases |a|
  {
    hide FeedEntry, Alike, NextStep;
    if |a| == 0 {
      NoneAlike(a, b);
    } else {
      StepsAlike(a, b);
      if a[0] == b[0] {
        FeedSame(indexes, f, a, b);
        var n := if TakesNext(a) then 2 else 1;
        AlikeTails(a, b, n);
        FeedAlike(indexes, FeedEntry(indexes, f, a), a[n..], b[n..]);
      } else {
        FeedSilent(indexes, f, a, b);
        AlikeTails(a, b, 1);
        FeedAlike(indexes, f, a[1..], b[1..]);
        if NextStep(a).Some? {
          SilentThenStep(indexes, f, a, b);
        }
      }
    }
  }

  lemma NoneAlike(a: seq<Entry>, b: seq<Entry>)
    requires Alike(a, b) && |a| == 0
    ensures b == []
  {
  }

  lemma SilentThenStep(indexes: Indexes, f: Feeding, a: seq<Entry>, b: seq<Entry>)
    requires Alike(a, b) && |a| > 0 && a[0] != b[0] && NextStep(a).Some?
    requires FeedAll(indexes, f, a[1..]) == FeedAll(indexes, f, b[1..])
    ensures FeedAll(indexes, f, a) == FeedAll(indexes, f, b)
  {
    hide FeedEntry;
    FeedSilent(indexes, f, a, b);
    var g := Call(f, Stepped(NextStep(a).value.size));
    assert a[1] == StepEntry(NextStep(a).value) && a[1..][0] == a[1] && a[1..][1..] == a[2..];
    StepAlone(indexes, f, a[1..]);
    assert FeedAll(indexes, f, a) == FeedAll(indexes, g, a[2..]);
    assert FeedAll(indexes, f, b) == FeedAll(indexes, f, b[1..]);
  }

  lemma StepAlone(indexes: Indexes, f: Feeding, entries: seq<Entry>)
    requires |entries| > 0 && entries[0].StepEntry?
    ensures FeedAll(indexes, f, entries) == FeedAll(indexes, Call(f, Stepped(entries[0].step.size)), entries[1..])
  {
    hide FirstLogTime;
  }

  // ---------------------------------------------------------------- the scan path gives file order

  lemma {:induction false} FileOrderSnoc(groups: seq<Group>, g: Group)
    ensures FileOrder(groups + [g]) == FileOrder(groups) + GroupEntries(g)
  {
    if |groups| == 0 {
      assert [] + [g] == [g];
      assert [g][1..] == [];
    } else {
      assert (groups + [g])[1..] == groups[1..] + [g];
      FileOrderSnoc(groups[1..], g);
    }
  }

  lemma IndexedPrefix(groups: seq<Group>)
    requires FullyIndexed(groups) && |groups| > 0
    ensures var n := |groups| - 1;
            && FullyIndexed(groups[..n]) && ValidGroup(groups[n]) && IndexedGroup(groups[n])
            && (HasSync(groups) <==> HasSync(groups[..n]) || IsSync(groups[n]))
  {
    hide ValidGroup, IndexedGroup, IsSync;
    var n := |groups| - 1;
    assert groups[n] in groups;
    assert forall h <- groups[..n] :: h in groups;
  }

  lemma {:induction false} ScanGivesOrder(groups: seq<Group>)
    requires FullyIndexed(groups)
    ensures Settled(groups).entries == ScanOrder(groups)
    ensures Settled(groups).clockSync <==> HasSync(groups)
    ensures Settled(groups).chunk == None
  {
    hide ValidGroup, IndexedGroup, AddGroup, IsSync, ScanEntries;
    if |groups| > 0 {
      var n := |groups| - 1;
      IndexedPrefix(groups);
      hide FullyIndexed, HasSync;
      ScanGivesOrder(groups[..n]);
      AddGroupEntries(Settled(groups[..n]), groups[n]);
    }
  }

  lemma AddGroupEntries(s: ScanState, g: Group)
    requires ValidGroup(g) && s.chunk == None && IndexedGroup(g)
    ensures var t := AddGroup(s, g);
            && t.entries == s.entries + ScanEntries(g) && t.chunk == None
            && (t.clockSync <==> s.clockSync || IsSync(g))
  {
    if g.ChunkGroup? {
      SameChannels(g.marks);
    } else if |GroupSteps(g)| > 0 {
      assert GroupSteps(g)[1..] == [];
      assert StepEntries(GroupSteps(g)) == [StepEntry(GroupSteps(g)[0])];
    }
  }

  lemma AlikeMore(a: seq<Entry>, b: seq<Entry>, x: seq<Entry>, y: seq<Entry>)
    requires Alike(a, b) && Alike(x, y)
    ensures Alike(a + x, b + y)
  {
  }

  lemma GroupAlike(g: Group)
    ensures Alike(ScanEntries(g), GroupEntries(g)) && (!Silent(g) ==> ScanEntries(g) == GroupEntries(g))
  {
    if Silent(g) {
      SameChannels(g.marks);
    }
  }

  /** The scan's entries are those of the file's order but for chunks without messages. */
  lemma {:induction false} OrdersAlike(groups: seq<Group>)
    ensures Alike(ScanOrder(groups), FileOrder(groups))
    ensures (forall g <- groups :: !Silent(g)) ==> ScanOrder(groups) == FileOrder(groups)
  {
    hide Alike, ScanEntries, GroupEntries, Silent;
    if |groups| == 0 {
      AlikeNothing();
    } else {
      var n := |groups| - 1;
      OrdersAlike(groups[..n]);
      assert groups == groups[..n] + [groups[n]];
      FileOrderSnoc(groups[..n], groups[n]);
      GroupAlike(groups[n]);
      AlikeMore(ScanOrder(groups[..n]), FileOrder(groups[..n]), ScanEntries(groups[n]), GroupEntries(groups[n]));
    }
  }

  lemma AlikeNothing()
    ensures Alike([], [])
  {
  }

  // ---------------------------------------------------------------- the index path gives file order

  lemma {:induction false} MembersAfter(groups: seq<Group>, bound: nat)
    requires forall g <- groups :: bound < OffsetOf(g)
    ensures forall c <- ChunksOf(groups) :: bound < c.offset
    ensures forall s <- StepsOf(groups) :: bound < s.offset
  {
    if |groups| > 0 {
      MembersAfter(groups[1..], bound);
      assert groups[0] in groups;
      assert forall g <- groups[1..] :: g in groups;
      assert forall c <- ChunksOf(groups) :: c in GroupChunks(groups[0]) || c in ChunksOf(groups[1..]);
      assert forall s <- StepsOf(groups) :: s in GroupSteps(groups[0]) || s in StepsOf(groups[1..]);
    }
  }

  predicate OffsetsIncrease(groups: seq<Group>) {
    forall i, j :: 0 <= i < j < |groups| ==> OffsetOf(groups[i]) < OffsetOf(groups[j])
  }

  lemma FirstOffset(groups: seq<Group>)
    requires OffsetsIncrease(groups) && |groups| > 0
    ensures OffsetsIncrease(groups[1..])
    ensures forall g <- groups[1..] :: OffsetOf(groups[0]) < OffsetOf(g)
  {
  }

  lemma {:induction false} InFileOrder(groups: seq<Group>)
    requires OffsetsIncrease(groups)
    ensures IncreasingBy(ChunkOffset, ChunksOf(groups)) && IncreasingBy(StepOffset, StepsOf(groups))
    ensures MergeEntries(ChunksOf(groups), StepsOf(groups)) == FileOrder(groups)
  {
    hide MergeEntries, IndexOf, StepFrom;
    if |groups| > 0 {
      FirstOffset(groups);
      InFileOrder(groups[1..]);
      MembersAfter(groups[1..], OffsetOf(groups[0]));
      MergeOne(groups[0], ChunksOf(groups[1..]), StepsOf(groups[1..]));
      GroupOffsets(groups[0]);
      IncreasingCons(ChunkOffset, GroupChunks(groups[0]), ChunksOf(groups[1..]), OffsetOf(groups[0]));
      IncreasingCons(StepOffset, GroupSteps(groups[0]), StepsOf(groups[1..]), OffsetOf(groups[0]));
    } else {
      MergeNothing();
    }
  }

  lemma GroupOffsets(g: Group)
    ensures |GroupChunks(g)| <= 1 && forall c <- GroupChunks(g) :: c.offset == OffsetOf(g)
    ensures |GroupSteps(g)| <= 1 && forall s <- GroupSteps(g) :: s.offset == OffsetOf(g)
  {
  }

  lemma IncreasingCons<T>(key: T -> nat, first: seq<T>, rest: seq<T>, bound: nat)
    requires |first| <= 1 && IncreasingBy(key, rest)
    requires forall x <- first :: key(x) == bound
    requires forall x <- rest :: bound < key(x)
    ensures IncreasingBy(key, first + rest)
  {
    forall i, j | 0 <= i < j < |first + rest|
      ensures key((first + rest)[i]) < key((first + rest)[j])
    {
      assert (first + rest)[j] in rest;
      if i < |first| {
        assert (first + rest)[i] in first;
      } else {
        assert key(rest[i - |first|]) < key(rest[j - |first|]);
      }
    }
  }

  lemma MergeOne(g: Group, chunks: seq<ChunkIndex>, steps: seq<ClockStep>)
    requires forall c <- chunks :: OffsetOf(g) < c.offset
    requires forall s <- steps :: OffsetOf(g) < s.offset
    ensures MergeEntries(GroupChunks(g) + chunks, GroupSteps(g) + steps)
            == GroupEntries(g) + MergeEntries(chunks, steps)
  {
    if g.ChunkGroup? {
      assert GroupSteps(g) + steps == steps;
      assert (GroupChunks(g) + chunks)[1..] == chunks;
    } else {
      assert GroupChunks(g) + chunks == chunks;
      if |GroupSteps(g)| == 0 {
        assert GroupSteps(g) + steps == steps;
      } else {
        var step := GroupSteps(g)[0];
        assert GroupSteps(g) == [step] && [step][1..] == [];
        assert StepEntries([step]) == [StepEntry(step)];
        assert ([step] + steps)[1..] == steps && ([step] + steps)[0] == step;
        assert |chunks| > 0 ==> chunks[0] in chunks;
      }
    }
  }

  lemma {:induction false} MetadataFound(groups: seq<Group>, i: nat)
    requires i < |groups| && groups[i].Single? && groups[i].placed.record.Metadata?
    requires OffsetsIncrease(groups)
    ensures MetadataAt(groups, OffsetOf(groups[i])) == Some(groups[i].placed.record)
  {
    if i > 0 {
      MetadataFound(groups[1..], i - 1);
    }
  }

  lemma {:induction false} IndexedConcat(groups: seq<Group>, a: seq<MetadataIndex>, b: seq<MetadataIndex>)
    ensures IndexedSteps(groups, a + b) == IndexedSteps(groups, a) + IndexedSteps(groups, b)
  {
    if |a| == 0 {
      assert a + b == b;
    } else {
      assert (a + b)[1..] == a[1..] + b;
      IndexedConcat(groups, a[1..], b);
    }
  }

  function Without(indexes: seq<MetadataIndex>, j: nat): seq<MetadataIndex>
    requires j < |indexes|
  {
    indexes[..j] + indexes[j + 1..]
  }

  /** Taking one element out of both of two permutations leaves permutations. */
  lemma TakenOut(a: seq<MetadataIndex>, b: seq<MetadataIndex>, j: nat)
    requires multiset(a) == multiset(b) && |a| > 0 && j < |b| && b[j] == a[0]
    ensures multiset(a[1..]) == multiset(Without(b, j))
  {
    assert a == [a[0]] + a[1..];
    assert b == b[..j] + ([b[j]] + b[j + 1..]);
    assert multiset(Without(b, j)) == multiset(b) - multiset{b[j]};
  }

  /** Where in the list an index is does not matter to the steps found. */
  lemma IndexedAnywhere(groups: seq<Group>, indexes: seq<MetadataIndex>, j: nat)
    requires j < |indexes|
    ensures multiset(IndexedSteps(groups, indexes)) ==
            multiset(IndexedStep(groups, indexes[j])) + multiset(IndexedSteps(groups, Without(indexes, j)))
  {
    var front, back := indexes[..j], indexes[j + 1..];
    assert indexes == front + ([indexes[j]] + back);
    IndexedConcat(groups, front, [indexes[j]] + back);
    IndexedConcat(groups, front, back);
    assert ([indexes[j]] + back)[1..] == back;
  }

  /** Looking up the metadata in another order finds the same steps. */
  lemma {:induction false} IndexedPermutes(groups: seq<Group>, a: seq<MetadataIndex>, b: seq<MetadataIndex>)
    requires multiset(a) == multiset(b)
    ensures multiset(IndexedSteps(groups, a)) == multiset(IndexedSteps(groups, b))
  {
    hide Without, IndexedStep;
    assert |a| == |multiset(a)| == |multiset(b)| == |b|;
    if |a| > 0 {
      hide IndexedSteps;
      assert a[0] in multiset(b);
      var j :| 0 <= j < |b| && b[j] == a[0];
      TakenOut(a, b, j);
      IndexedPermutes(groups, a[1..], Without(b, j));
      IndexedAnywhere(groups, a, 0);
      IndexedAnywhere(groups, b, j);
      WithoutFirst(a);
    }
  }

  lemma WithoutFirst(a: seq<MetadataIndex>)
    requires |a| > 0
    ensures Without(a, 0) == a[1..]
  {
  }

  lemma {:induction false} IndexedInOrder(groups: seq<Group>, from: nat)
    requires from <= |groups|
    requires OffsetsIncrease(groups)
    ensures IndexedSteps(groups, MetadataOf(groups[from..])) == StepsOf(groups[from..])
    decreases |groups| - from
  {
    if from < |groups| {
      var g := groups[from];
      assert groups[from..][1..] == groups[from + 1..];
      IndexedInOrder(groups, from + 1);
      IndexedConcat(groups, GroupMetadata(g), MetadataOf(groups[from + 1..]));
      if g.Single? && g.placed.record.Metadata? {
        MetadataFound(groups, from);
        assert GroupMetadata(g)[1..] == [];
        assert IndexedSteps(groups, GroupMetadata(g)) == GroupSteps(g) + [];
      }
    }
  }

  lemma {:induction false} MetadataMembers(groups: seq<Group>)
    ensures forall m :: m in MetadataOf(groups) <==> exists g <- groups :: m in GroupMetadata(g)
  {
    if |groups| > 0 {
      MetadataMembers(groups[1..]);
      assert groups == [groups[0]] + groups[1..];
    }
  }

  lemma SyncIndexed(groups: seq<Group>, summary: Summary, i: nat)
    requires Truthful(groups, summary) && i < |groups| && IsSync(groups[i])
    ensures IndexedSync(summary)
  {
    MetadataMembers(groups);
    var m := MetadataIndex(groups[i].placed.offset, CLOCK_SYNC);
    assert GroupMetadata(groups[i]) == [m];
    assert m in GroupMetadata(groups[i]) && groups[i] in groups;
    assert m in MetadataOf(groups);
    assert m in multiset(MetadataOf(groups));
    assert m in multiset(summary.metadataIndexes);
  }

  lemma IndexIsSync(groups: seq<Group>, summary: Summary, i: nat)
    requires Truthful(groups, summary)
    requires i < |summary.metadataIndexes| && summary.metadataIndexes[i].name == CLOCK_SYNC
    ensures HasSync(groups)
  {
    MetadataMembers(groups);
    var m := summary.metadataIndexes[i];
    assert m in multiset(summary.metadataIndexes);
    assert m in MetadataOf(groups);
    var g :| g in groups && m in GroupMetadata(g);
    var k :| 0 <= k < |groups| && groups[k] == g;
    assert IsSync(groups[k]);
  }

  lemma SameSync(groups: seq<Group>, summary: Summary)
    requires Truthful(groups, summary)
    ensures IndexedSync(summary) <==> HasSync(groups)
  {
    if HasSync(groups) {
      var i :| 0 <= i < |groups| && IsSync(groups[i]);
      SyncIndexed(groups, summary, i);
    }
    if IndexedSync(summary) {
      var i :| 0 <= i < |summary.metadataIndexes| && summary.metadataIndexes[i].name == CLOCK_SYNC;
      IndexIsSync(groups, summary, i);
    }
  }

  /** For any complete file with indexes for all its messages and any truthful summary, both
      paths feed the timeline alike under the same flag: the same entries, but for chunks
      without messages, which the scan opens. */
  lemma PathsAgree(groups: seq<Group>, rest: seq<Placed>, summary: Summary, indexes: Indexes,
                   f: Feeding)
    requires FullyIndexed(groups) && |rest| > 0 && EndsData(rest[0].record)
    requires Truthful(groups, summary)
    ensures var scanned := Scanned(Records(groups) + rest);
            && Alike(scanned.entries, IndexedEntries(groups, summary))
            && ((forall g <- groups :: !Silent(g)) ==> scanned.entries == IndexedEntries(groups, summary))
            && FeedAll(indexes, f, scanned.entries) == FeedAll(indexes, f, IndexedEntries(groups, summary))
            && (IndexedSync(summary) <==> scanned.clockSync)
  {
    hide Alike, Silent, FeedAll, ScanOrder;
    ScannedComplete(groups, rest);
    ScanGivesOrder(groups);
    SameSync(groups, summary);
    InFileOrder(groups);
    SortRestores(ChunkOffset, summary.chunkIndexes, ChunksOf(groups));
    IndexedPermutes(groups, summary.metadataIndexes, MetadataOf(groups));
    assert groups[0..] == groups;
    IndexedInOrder(groups, 0);
    SortRestores(StepOffset, IndexedSteps(groups, summary.metadataIndexes), StepsOf(groups));
    OrdersAlike(groups);
    FeedAlike(indexes, f, ScanOrder(groups), FileOrder(groups));
  }
}
