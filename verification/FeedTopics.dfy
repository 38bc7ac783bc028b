/** Topic spans of a whole file lie within the recording it is reported as. */
module FeedTopics {
  import opened Spans
  import opened Timeline
  import opened Conservation
  import opened ChannelSpan
  import opened Leak
  import opened Feed
  import opened FeedLoop
  import opened MessageIndexes
  import T = TopicSpans

  /** Whether the record after a chunk whose messages cannot be looked up leaves its span as it is. */
  predicate LeavesSpan(f: Feeding, chunk: ChunkIndex, step: int) {
    var span := Span(chunk.startTime, chunk.endTime);
    Described(PushChunk(f, chunk).Timeline(), step).Some? || Trimmed(span, Some(Abs(step))) == span
  }

  /** No chunk is trimmed: before a record its messages can be looked up, or the record
      describes a jump already seen, or the chunk spans less than the step. */
  predicate NothingTrimmed(indexes: Indexes, f: Feeding, entries: seq<Entry>)
    decreases |entries|
  {
    |entries| > 0 ==>
      && (entries[0].ChunkEntry? && TakesNext(entries) && indexes.messageTimes(entries[0].chunk) == None ==>
            LeavesSpan(f, entries[0].chunk, entries[1].step.size))
      && NothingTrimmed(indexes, FeedEntry(indexes, f, entries), entries[if TakesNext(entries) then 2 else 1..])
  }

  /** No chunk holds messages outside the time range of its header. */
  predicate HeadersCover(read: Reader, entries: seq<Entry>) {
    forall i :: 0 <= i < |entries| && entries[i].ChunkEntry? ==> HeaderCovers(read, entries[i].chunk)
  }

  ghost predicate Pushed(history: seq<Item>, segment: nat, chunk: ChunkIndex) {
    exists i :: 0 <= i < |history| && history[i] == Item(segment, Span(chunk.startTime, chunk.endTime))
  }

  /** A held chunk was pushed unexpanded, in the segment it is held under. */
  ghost predicate ChunksIn(read: Reader, history: seq<Item>, segment: nat, chunks: seq<ChunkIndex>) {
    forall i :: 0 <= i < |chunks| ==> Pushed(history, segment, chunks[i]) && HeaderCovers(read, chunks[i])
  }

  ghost predicate HeldIn(read: Reader, history: seq<Item>, holding: map<(nat, nat), seq<ChunkIndex>>) {
    forall key <- holding :: ChunksIn(read, history, key.0, holding[key])
  }

  ghost function HistoryOf(f: Feeding): seq<Item> {
    Run(f.authoritative, f.events).history
  }

  ghost predicate Tracked(read: Reader, f: Feeding) {
    T.AllCovered(HistoryOf(f), f.pushes) && HeldIn(read, HistoryOf(f), f.holding)
  }

  // ---------------------------------------------------------------- one call

  lemma MoreHistory(read: Reader, history: seq<Item>, item: Item, pushes: seq<ChannelItem>,
                    holding: map<(nat, nat), seq<ChunkIndex>>)
    requires T.AllCovered(history, pushes) && HeldIn(read, history, holding)
    ensures T.AllCovered(history + [item], pushes) && HeldIn(read, history + [item], holding)
  {
    var more := history + [item];
    assert forall i :: 0 <= i < |history| ==> more[i] == history[i];
    forall k | 0 <= k < |pushes|
      ensures T.Covered(more, pushes[k])
    {
      assert T.Covered(history, pushes[k]);
      StillCovered(history, item, pushes[k]);
    }
    forall key | key in holding
      ensures ChunksIn(read, more, key.0, holding[key])
    {
      assert ChunksIn(read, history, key.0, holding[key]);
      StillIn(read, history, item, key.0, holding[key]);
    }
  }

  lemma StillIn(read: Reader, history: seq<Item>, item: Item, segment: nat, chunks: seq<ChunkIndex>)
    requires ChunksIn(read, history, segment, chunks)
    ensures ChunksIn(read, history + [item], segment, chunks)
  {
    hide HeaderCovers;
    forall k | 0 <= k < |chunks|
      ensures Pushed(history + [item], segment, chunks[k])
    {
      var i :| 0 <= i < |history| && history[i] == Item(segment, Span(chunks[k].startTime, chunks[k].endTime));
      assert (history + [item])[i] == history[i];
    }
  }

  lemma StillCovered(history: seq<Item>, item: Item, push: ChannelItem)
    requires T.Covered(history, push)
    ensures T.Covered(history + [item], push)
  {
    var i :| 0 <= i < |history| && history[i].segment == push.segment && history[i].span.start <= push.span.start;
    var j :| 0 <= j < |history| && history[j].segment == push.segment && push.span.end <= history[j].span.end;
    assert (history + [item])[i] == history[i] && (history + [item])[j] == history[j];
  }

  lemma CallHistory(f: Feeding, event: Event)
    ensures var t := Run(f.authoritative, f.events);
            Run(f.authoritative, Call(f, event).events) == Apply(t, event)
  {
    assert (f.events + [event])[..|f.events|] == f.events;
  }

  lemma PushTracked(read: Reader, f: Feeding, span: Span)
    requires Tracked(read, f)
    ensures var g := Call(f, Event.Pushed(span));
            Tracked(read, g) && HistoryOf(g) == HistoryOf(f) + [Item(g.Timeline().segment, span)]
  {
    hide Timeline.Push, T.AllCovered, HeldIn;
    var g := Call(f, Event.Pushed(span));
    CallHistory(f, Event.Pushed(span));
    MoreHistory(read, HistoryOf(f), Item(g.Timeline().segment, span), f.pushes, f.holding);
  }

  lemma StepTracked(read: Reader, f: Feeding, step: int)
    requires Tracked(read, f)
    ensures Tracked(read, Call(f, Stepped(step)))
  {
    hide RecordStep, T.AllCovered, HeldIn;
    CallHistory(f, Stepped(step));
  }

  lemma PointTracked(read: Reader, f: Feeding, stamp: Stamp)
    requires Tracked(read, f)
    ensures Tracked(read, PushPoint(f, stamp))
  {
    hide Run;
    var point := Point(stamp.0);
    var g := Call(f, Event.Pushed(point));
    PushTracked(read, f, point);
    var item := ChannelItem(g.Timeline().segment, stamp.1, point);
    var history := HistoryOf(g);
    assert history[|history| - 1] == Item(item.segment, point);
    assert T.Covered(history, item);
  }

  lemma {:induction false} PointsTracked(read: Reader, f: Feeding, times: seq<Stamp>)
    requires Tracked(read, f)
    ensures Tracked(read, PushPoints(f, times))
  {
    hide Tracked, PushPoint;
    if |times| > 0 {
      var n := |times| - 1;
      PointsTracked(read, f, times[..n]);
      PointTracked(read, PushPoints(f, times[..n]), times[n]);
    }
  }

  lemma ChunkTracked(read: Reader, f: Feeding, chunk: ChunkIndex)
    requires Tracked(read, f) && HeaderCovers(read, chunk)
    ensures Tracked(read, PushChunk(f, chunk))
  {
    hide Run, HeaderCovers;
    var span := Span(chunk.startTime, chunk.endTime);
    var g := Call(f, Event.Pushed(span));
    PushTracked(read, f, span);
    HoldTracked(read, HistoryOf(g), f.holding, g.Timeline().segment, chunk, chunk.indexOffsets.Keys);
  }

  lemma HoldTracked(read: Reader, history: seq<Item>, holding: map<(nat, nat), seq<ChunkIndex>>, segment: nat,
                    chunk: ChunkIndex, channels: set<nat>)
    requires HeldIn(read, history, holding) && HeaderCovers(read, chunk)
    requires |history| > 0 && history[|history| - 1] == Item(segment, Span(chunk.startTime, chunk.endTime))
    ensures HeldIn(read, history, Hold(holding, segment, chunk, channels))
  {
    hide HeaderCovers, Pushed;
    var held := Hold(holding, segment, chunk, channels);
    assert Pushed(history, segment, chunk) by {
      LastPushed(history, segment, chunk);
    }
    forall key | key in held
      ensures ChunksIn(read, history, key.0, held[key])
    {
      assert key in holding ==> ChunksIn(read, history, key.0, holding[key]);
    }
  }

  lemma LastPushed(history: seq<Item>, segment: nat, chunk: ChunkIndex)
    requires |history| > 0 && history[|history| - 1] == Item(segment, Span(chunk.startTime, chunk.endTime))
    ensures Pushed(history, segment, chunk)
  {
  }

  // ---------------------------------------------------------------- whole files

  lemma MessagesTracked(read: Reader, f: Feeding, times: seq<Stamp>, next: Option<ClockStep>, resumes: Option<nat>)
    requires Tracked(read, f)
    ensures Tracked(read, FeedMessages(f, times, next, resumes))
  {
    hide Tracked, PushPoints, SplitIndex;
    match next
    case None => PointsTracked(read, f, times);
    case Some(step) =>
      var k := SplitIndex(times, step.size, LastEnd(f), resumes);
      PointsTracked(read, f, times[..k]);
      StepTracked(read, PushPoints(f, times[..k]), step.size);
      PointsTracked(read, Call(PushPoints(f, times[..k]), Stepped(step.size)), times[k..]);
  }

  /** A record after a chunk pushed unexpanded, when the chunk is not trimmed. */
  lemma UnresolvedTracked(read: Reader, f: Feeding, chunk: ChunkIndex, step: int)
    requires Tracked(read, f) && HeaderCovers(read, chunk) && LeavesSpan(f, chunk, step)
    ensures Tracked(read, Call(PushChunk(f, chunk), SteppedUnresolved(step)))
  {
    hide Tracked, RecordStep, Described, Timeline.Push;
    ChunkTracked(read, f, chunk);
    var g := PushChunk(f, chunk);
    CallHistory(f, Event.Pushed(Span(chunk.startTime, chunk.endTime)));
    CallHistory(g, SteppedUnresolved(step));
    assert HistoryOf(g) == HistoryOf(f) + [Item(g.Timeline().segment, Span(chunk.startTime, chunk.endTime))];
    var history := HistoryOf(g);
    assert TrimHistory(history, Some(Abs(step))) == history || Described(g.Timeline(), step).Some?;
    SameHistory(read, g, Call(g, SteppedUnresolved(step)));
  }

  lemma SameHistory(read: Reader, f: Feeding, g: Feeding)
    requires Tracked(read, f) && HistoryOf(g) == HistoryOf(f) && g.pushes == f.pushes && g.holding == f.holding
    ensures Tracked(read, g)
  {
  }

  lemma EntryTracked(read: Reader, f: Feeding, entries: seq<Entry>)
    requires |entries| > 0 && Tracked(read, f) && HeadersCover(read, entries)
    requires NothingTrimmed(IndexesOf(read), f, entries)
    ensures Tracked(read, FeedEntry(IndexesOf(read), f, entries))
  {
    hide Tracked, FeedMessages, PushChunk, FirstLogTime, MessageTimes, ExtentIn, HeaderCovers, LeavesSpan;
    var next := NextStep(entries);
    var resumes := if next.Some? then FirstLogTime(entries[2..]) else None;
    match entries[0]
    case StepEntry(step) => StepTracked(read, f, step.size);
    case MessagesEntry(times) => MessagesTracked(read, f, times, next, resumes);
    case ChunkEntry(chunk) =>
      if !NoMessages(chunk) {
        match ResolvedTimes(IndexesOf(read), chunk, next.Some?)
        case Some(times) => MessagesTracked(read, f, times, next, resumes);
        case None =>
          if next.Some? {
            UnresolvedTracked(read, f, chunk, next.value.size);
          } else {
            ChunkTracked(read, f, chunk);
          }
      }
  }

  lemma {:induction false} FileTracked(read: Reader, f: Feeding, entries: seq<Entry>)
    requires Tracked(read, f) && HeadersCover(read, entries) && NothingTrimmed(IndexesOf(read), f, entries)
    ensures Tracked(read, FeedAll(IndexesOf(read), f, entries))
    decreases |entries|
  {
    hide Tracked, FeedEntry, HeaderCovers, IndexesOf, LeavesSpan;
    if |entries| > 0 {
      EntryTracked(read, f, entries);
      FileTracked(read, FeedEntry(IndexesOf(read), f, entries), entries[if TakesNext(entries) then 2 else 1..]);
    }
  }

  // ---------------------------------------------------------------- the held chunks

  /** What the held chunks say of a channel lies within what was pushed for them. */
  lemma HeldCovered(read: Reader, history: seq<Item>, holding: map<(nat, nat), seq<ChunkIndex>>, key: (nat, nat))
    requires HeldIn(read, history, holding) && key in holding
    ensures T.AllCovered(history, HeldSpans(IndexesOf(read), key, holding[key]))
  {
    hide HeaderCovers, ExtentIn;
    var chunks := holding[key];
    assert ChunksIn(read, history, key.0, chunks);
    match ExtentIn(read, chunks, key.1)
    case Some(Some(extent)) =>
      ExtentCovered(read, chunks, key.1);
      var first :| first in chunks && first.startTime <= extent.start;
      var last :| last in chunks && extent.end <= last.endTime;
      var i :| 0 <= i < |chunks| && chunks[i] == first;
      var j :| 0 <= j < |chunks| && chunks[j] == last;
      assert Pushed(history, key.0, chunks[i]) && Pushed(history, key.0, chunks[j]);
    case Some(None) =>
    case None =>
      forall i | 0 <= i < |chunks|
        ensures T.Covered(history, ChannelItem(key.0, key.1, Span(chunks[i].startTime, chunks[i].endTime)))
      {
        assert Pushed(history, key.0, chunks[i]);
      }
  }

  lemma ExtentCovered(read: Reader, chunks: seq<ChunkIndex>, channel: nat)
    requires forall c <- chunks :: HeaderCovers(read, c)
    ensures var extent := ExtentIn(read, chunks, channel);
            extent.Some? && extent.value.Some? ==>
              && (exists c <- chunks :: c.startTime <= extent.value.value.start)
              && (exists c <- chunks :: extent.value.value.end <= c.endTime)
  {
    StartCovered(read, chunks, channel);
    EndCovered(read, chunks, channel);
  }

  lemma {:induction false} AllHeldCovered(read: Reader, history: seq<Item>, holding: map<(nat, nat), seq<ChunkIndex>>,
                                          order: seq<(nat, nat)>)
    requires HeldIn(read, history, holding) && forall k :: k in order ==> k in holding
    ensures T.AllCovered(history, AllHeldSpans(IndexesOf(read), holding, order))
  {
    hide HeldIn, T.Covered, HeldSpans;
    if |order| > 0 {
      var n := |order| - 1;
      AllHeldCovered(read, history, holding, order[..n]);
      HeldCovered(read, history, holding, order[n]);
    }
  }

  /** For any file whose chunk headers cover their messages, whatever its records,
      whatever leaks across them and whichever chunks stay compressed, if none is trimmed
      no topic is
      reported to span more than the recording or in more segments than survive. */
  lemma FileTopicsWithinRecording(read: Reader, entries: seq<Entry>, authoritative: bool,
                                  channel: nat,
                                  order: seq<(nat, nat)>, pushes: seq<ChannelItem>)
    requires HeadersCover(read, entries) && NothingTrimmed(IndexesOf(read), Feed.Start(authoritative), entries)
    requires var f := FeedAll(IndexesOf(read), Feed.Start(authoritative), entries);
             && RunFits(f.authoritative, f.events) && CloseFits(SettlePause(f.Timeline()))
             && RecordedAll(IndexesOf(read), f, order, pushes)
    ensures var f := FeedAll(IndexesOf(read), Feed.Start(authoritative), entries);
            var finished := Finished(f.Timeline());
            T.WithinRecording(f.Timeline(), HistoryOf(f),
                ExtentOf(pushes, finished.merged, finished.abandoned, channel))
  {
    hide T.WithinRecording, FeedAll, CloseFits, RunFits, Run, ExtentOf, Inv, IndexesOf, HeldIn, T.Covered, AllHeldSpans;
    StartTracked(read, authoritative);
    FileTracked(read, Feed.Start(authoritative), entries);
    var f := FeedAll(IndexesOf(read), Feed.Start(authoritative), entries);
    AllHeldCovered(read, HistoryOf(f), f.holding, order);
    RunKeeps(f.authoritative, f.events);
    var t := Run(f.authoritative, f.events);
    T.ExtentWithinRecording(t.state, t.history, t.pauses, pushes, channel);
  }

  lemma StartTracked(read: Reader, authoritative: bool)
    ensures Tracked(read, Feed.Start(authoritative))
  {
  }

  // ---------------------------------------------------------------- a chunk that is trimmed

  const SECOND := 1_000_000_000

  /** No message index can be read. */
  const UNREADABLE: Reader := (offset: nat) => None

  /** A chunk of 4 seconds, then a record of a step as large. */
  const CHUNK := ChunkIndex(0, 96 * SECOND, 100 * SECOND, map[0 := 1])
  const TRIMMED := [ChunkEntry(CHUNK), StepEntry(ClockStep(2, 4 * SECOND))]

  lemma NoTimes()
    ensures MessageTimes(UNREADABLE, CHUNK) == None && ExtentIn(UNREADABLE, [CHUNK], 0) == None
  {
    assert Gather(UNREADABLE, CHUNK.indexOffsets, 1) == None;
    GatherFails(UNREADABLE, CHUNK.indexOffsets, 1, CHANNEL_LIMIT);
  }

  lemma TrimmedFed()
    ensures FeedAll(IndexesOf(UNREADABLE), Feed.Start(true), TRIMMED)
         == Call(PushChunk(Feed.Start(true), CHUNK), SteppedUnresolved(4 * SECOND))
  {
    hide PushChunk, MessageTimes, ExtentIn;
    NoTimes();
    var f := Feed.Start(true);
    assert TRIMMED[2..] == [];
    assert NextStep(TRIMMED) == Some(ClockStep(2, 4 * SECOND));
    assert FeedEntry(IndexesOf(UNREADABLE), f, TRIMMED) == Call(PushChunk(f, CHUNK), SteppedUnresolved(4 * SECOND));
  }

  lemma TrimmedTimeline()
    ensures var g := Call(PushChunk(Feed.Start(true), CHUNK), SteppedUnresolved(4 * SECOND));
            && Finish(g.Timeline()) == Report(0, 1) && Finished(g.Timeline()).merged == []
                && Finished(g.Timeline()).abandoned == []
            && g.pushes == [] && g.holding == map[(0, 0) := [CHUNK]]
  {
    var f := Feed.Start(true);
    CallHistory(f, Event.Pushed(Span(CHUNK.startTime, CHUNK.endTime)));
    CallHistory(PushChunk(f, CHUNK), SteppedUnresolved(4 * SECOND));
    var g := PushChunk(f, CHUNK);
    var keys := set c | c in CHUNK.indexOffsets.Keys :: (g.Timeline().segment, c);
    assert CHUNK.indexOffsets.Keys == {0} && keys == {(0, 0)};
    assert g.holding.Keys == keys && g.holding[(0, 0)] == [CHUNK];
  }

  lemma OneItem(item: ChannelItem)
    requires item.segment == 0 && item.channel == 0 && 0 <= item.span.start <= item.span.end <= U64_MAX
    ensures ExtentOf([item], [], [], 0).spanNs == item.span.Len()
  {
    var pushes := [item];
    assert pushes[..0] == [];
    assert ChannelHull(pushes, [], [], 0, 0) == Some(item.span);
    var lengths := ChannelLengths(pushes, [], [], 0, 1);
    assert lengths == [item.span.Len()];
    assert Sum(lengths) == Sum(lengths[..0]) + lengths[0];
    assert SegmentBound(pushes, []) == 1;
  }

  /** When a chunk is trimmed the recording can be reported shorter than a topic in it. */
  lemma TrimmedTopicOutlasts()
    ensures HeadersCover(UNREADABLE, TRIMMED)
    ensures var f := FeedAll(IndexesOf(UNREADABLE), Feed.Start(true), TRIMMED);
            var item := ChannelItem(0, 0, Span(CHUNK.startTime, CHUNK.endTime));
            && RecordedAll(IndexesOf(UNREADABLE), f, [(0, 0)], [item])
            && Finish(f.Timeline()).duration == 0
            && ExtentOf([item], Finished(f.Timeline()).merged, Finished(f.Timeline()).abandoned, 0).spanNs == 4 * SECOND
  {
    hide FeedAll, PushChunk, Finish, Finished, ExtentOf, ExtentIn, MessageTimes;
    TrimmedFed();
    TrimmedTimeline();
    NoTimes();
    var item := ChannelItem(0, 0, Span(CHUNK.startTime, CHUNK.endTime));
    OneItem(item);
    OneHeld(item);
  }

  lemma OneHeld(item: ChannelItem)
    requires item == ChannelItem(0, 0, Span(CHUNK.startTime, CHUNK.endTime))
    requires ExtentIn(UNREADABLE, [CHUNK], 0) == None
    ensures AllHeldSpans(IndexesOf(UNREADABLE), map[(0, 0) := [CHUNK]], [(0, 0)]) == [item]
    ensures Enumerates([(0, 0)], map[(0, 0) := [CHUNK]].Keys)
  {
    hide ExtentIn;
    assert [(0, 0)][..0] == [];
    assert HeldSpans(IndexesOf(UNREADABLE), (0, 0), [CHUNK]) == [item];
  }
}
