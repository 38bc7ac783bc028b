/** The loop over a file's entries, as it runs. */
module FeedLoop {
  import opened Spans
  import opened Timeline
  import opened Conservation
  import opened Accumulator
  import opened ChannelSpan
  import opened Leak
  import opened Feed
  import opened TopicSpans

  /** The spans recorded for the chunks held for one channel in one segment. */
  function HeldSpans(indexes: Indexes, key: (nat, nat), chunks: seq<ChunkIndex>): seq<ChannelItem> {
    match indexes.channelExtent(chunks, key.1)
    case Some(Some(extent)) => [ChannelItem(key.0, key.1, extent)]
    case Some(None) => []
    case None => seq(|chunks|, i requires 0 <= i < |chunks| =>
                   ChannelItem(key.0, key.1, Span(chunks[i].startTime, chunks[i].endTime)))
  }

  function AllHeldSpans(indexes: Indexes, holding: map<(nat, nat), seq<ChunkIndex>>,
                        order: seq<(nat, nat)>): seq<ChannelItem>
    requires forall k :: k in order ==> k in holding
  {
    if |order| == 0 then []
    else
      var key := order[|order| - 1];
      AllHeldSpans(indexes, holding, order[..|order| - 1]) + HeldSpans(indexes, key, holding[key])
  }

  /** `order` lists the keys held, each once. */
  ghost predicate Enumerates(order: seq<(nat, nat)>, keys: set<(nat, nat)>) {
    && (forall k :: k in order <==> k in keys)
    && (forall i, j :: 0 <= i < j < |order| ==> order[i] != order[j])
  }

  /** `pushes` is what was recorded message by message, then the held chunks in some order. */
  ghost predicate RecordedAll(indexes: Indexes, f: Feeding, order: seq<(nat, nat)>, pushes: seq<ChannelItem>) {
    Enumerates(order, f.holding.Keys) && pushes == f.pushes + AllHeldSpans(indexes, f.holding, order)
  }

  /** `acc` and `spans` are where feeding has got to. */
  ghost predicate At(acc: TimelineAccumulator, spans: ChannelSpans, f: Feeding)
    reads acc, spans
  {
    && acc.Valid() && spans.Valid()
    && acc.authoritative == f.authoritative
    && acc.Value() == f.Timeline()
    && spans.pushes == f.pushes
  }

  /** Pushes each message as a point, in order. */
  method PushPointsTo(acc: TimelineAccumulator, spans: ChannelSpans, times: seq<Stamp>, ghost f: Feeding)
    requires At(acc, spans, f)
    modifies acc, spans
    ensures At(acc, spans, PushPoints(f, times))
  {
    hide Sound;
    assert times[..0] == [];
    for i := 0 to |times|
      invariant At(acc, spans, PushPoints(f, times[..i]))
    {
      ghost var g := PushPoints(f, times[..i]);
      assert times[..i + 1][..i] == times[..i];
      var (t, channel) := times[i];
      CallTimeline(g, Pushed(Point(t)));
      acc.Push(Point(t));
      spans.Push(acc.segment, channel, Point(t));
    }
    assert times[..|times|] == times;
  }

  /** Pushes the messages written before a record, placing any taken after the step on its far side. */
  method PushAcrossStepTo(acc: TimelineAccumulator, spans: ChannelSpans, times: seq<Stamp>, step: ClockStep,
                          resumes: Option<nat>, ghost f: Feeding)
    requires At(acc, spans, f)
    modifies acc, spans
    ensures At(acc, spans, PushAcrossStep(f, times, step.size, resumes))
  {
    hide Sound;
    var end := acc.LastEnd();
    assert end == LastEnd(f);
    var split := SplitIndex(times, step.size, end, resumes);
    PushPointsTo(acc, spans, times[..split], f);
    ghost var g := PushPoints(f, times[..split]);
    CallTimeline(g, Stepped(step.size));
    acc.ClockStep(step.size);
    PushPointsTo(acc, spans, times[split..], Call(g, Stepped(step.size)));
  }

  /** Feeds messages, across the record that follows them when there is one. */
  method FeedMessagesTo(acc: TimelineAccumulator, spans: ChannelSpans, times: seq<Stamp>, next: Option<ClockStep>,
                        resumes: Option<nat>, ghost f: Feeding)
    requires At(acc, spans, f)
    modifies acc, spans
    ensures At(acc, spans, FeedMessages(f, times, next, resumes))
  {
    hide Sound;
    if next.Some? {
      PushAcrossStepTo(acc, spans, times, next.value, resumes, f);
    } else {
      PushPointsTo(acc, spans, times, f);
    }
  }

  /** Notes a chunk pushed unexpanded in `segment` under each of its channels. */
  method HoldChunk(segment: nat, chunk: ChunkIndex, holding: map<(nat, nat), seq<ChunkIndex>>)
    returns (held: map<(nat, nat), seq<ChunkIndex>>)
    ensures held == Hold(holding, segment, chunk, chunk.indexOffsets.Keys)
  {
    held := holding;
    var left := chunk.indexOffsets.Keys;
    assert held == Hold(holding, segment, chunk, chunk.indexOffsets.Keys - left);
    while left != {}
      invariant left <= chunk.indexOffsets.Keys
      invariant held == Hold(holding, segment, chunk, chunk.indexOffsets.Keys - left)
      decreases left
    {
      var channel :| channel in left;
      var key := (segment, channel);
      ghost var done := chunk.indexOffsets.Keys - left;
      HoldOneMore(holding, segment, chunk, done, channel);
      assert key !in holding ==> key !in held;
      held := held[key := (if key in held then held[key] else []) + [chunk]];
      left := left - {channel};
      assert chunk.indexOffsets.Keys - left == done + {channel};
    }
    assert chunk.indexOffsets.Keys - left == chunk.indexOffsets.Keys;
  }

  lemma HoldOneMore(holding: map<(nat, nat), seq<ChunkIndex>>, segment: nat, chunk: ChunkIndex, done: set<nat>,
                    channel: nat)
    requires channel !in done
    ensures var before := Hold(holding, segment, chunk, done);
            var key := (segment, channel);
            Hold(holding, segment, chunk, done + {channel})
              == before[key := (if key in before then before[key] else []) + [chunk]]
  {
  }

  /** Feeds a chunk: its messages when they are looked up, else the chunk unexpanded. */
  method FeedChunkTo(indexes: Indexes, acc: TimelineAccumulator, spans: ChannelSpans, chunk: ChunkIndex,
                     holding: map<(nat, nat), seq<ChunkIndex>>, next: Option<ClockStep>, resumes: Option<nat>,
                     ghost f: Feeding)
    returns (held: map<(nat, nat), seq<ChunkIndex>>)
    requires At(acc, spans, f) && holding == f.holding
    modifies acc, spans
    ensures At(acc, spans, FeedChunk(indexes, f, chunk, next, resumes))
    ensures held == FeedChunk(indexes, f, chunk, next, resumes).holding
  {
    hide Sound;
    var times := ResolvedTimes(indexes, chunk, next.Some?);
    held := holding;
    if times.Some? {
      FeedMessagesTo(acc, spans, times.value, next, resumes, f);
      FeedMessagesHolds(f, times.value, next, resumes);
    } else {
      var span := Span(chunk.startTime, chunk.endTime);
      CallTimeline(f, Pushed(span));
      acc.Push(span);
      held := HoldChunk(acc.segment, chunk, holding);
      if next.Some? {
        CallTimeline(PushChunk(f, chunk), SteppedUnresolved(next.value.size));
        acc.ClockStepAfterUnresolved(next.value.size);
      }
    }
  }

  lemma {:induction false} PushPointsHolds(f: Feeding, times: seq<Stamp>)
    ensures PushPoints(f, times).holding == f.holding
  {
    if |times| > 0 {
      PushPointsHolds(f, times[..|times| - 1]);
    }
  }

  lemma FeedMessagesHolds(f: Feeding, times: seq<Stamp>, next: Option<ClockStep>, resumes: Option<nat>)
    ensures FeedMessages(f, times, next, resumes).holding == f.holding
  {
    match next
    case None => PushPointsHolds(f, times);
    case Some(step) =>
      var k := SplitIndex(times, step.size, LastEnd(f), resumes);
      PushPointsHolds(f, times[..k]);
      PushPointsHolds(Call(PushPoints(f, times[..k]), Stepped(step.size)), times[k..]);
  }

  /** Feeds the first of `entries`, and the record after it when that is taken with it. */
  method FeedEntryTo(indexes: Indexes, acc: TimelineAccumulator, spans: ChannelSpans, entries: seq<Entry>,
                     holding: map<(nat, nat), seq<ChunkIndex>>, ghost f: Feeding)
    returns (held: map<(nat, nat), seq<ChunkIndex>>, taken: nat)
    requires |entries| > 0
    requires At(acc, spans, f) && holding == f.holding
    modifies acc, spans
    ensures At(acc, spans, FeedEntry(indexes, f, entries))
    ensures held == FeedEntry(indexes, f, entries).holding
    ensures taken == if TakesNext(entries) then 2 else 1
  {
    hide Sound;
    var next := NextStep(entries);
    var resumes := if next.Some? then FirstLogTime(entries[2..]) else None;
    held, taken := holding, 1;
    match entries[0] {
      case StepEntry(step) =>
        CallTimeline(f, Stepped(step.size));
        acc.ClockStep(step.size);
      case MessagesEntry(times) =>
        if next.Some? {
          taken := 2;
        }
        FeedMessagesTo(acc, spans, times, next, resumes, f);
        FeedMessagesHolds(f, times, next, resumes);
      case ChunkEntry(chunk) =>
        if !NoMessages(chunk) {
          if next.Some? {
            taken := 2;
          }
          held := FeedChunkTo(indexes, acc, spans, chunk, holding, next, resumes, f);
        }
    }
  }

  lemma FeedAllStep(indexes: Indexes, f: Feeding, entries: seq<Entry>, i: nat)
    requires i < |entries|
    ensures var rest := entries[i..];
            FeedAll(indexes, f, rest)
              == FeedAll(indexes, FeedEntry(indexes, f, rest), entries[if TakesNext(rest) then i + 2 else i + 1..])
  {
    var rest := entries[i..];
    assert rest[1..] == entries[i + 1..];
    if TakesNext(rest) {
      assert rest[2..] == entries[i + 2..];
    }
  }

  /** Feeds a file, entry by entry and then the held chunks, and reports the recording and its channels. */
  method FeedEntries(indexes: Indexes, entries: seq<Entry>, authoritative: bool)
    returns (report: Report, extents: map<nat, ChannelExtent>, ghost order: seq<(nat, nat)>,
        ghost pushes: seq<ChannelItem>)
    ensures report == Finish(FeedAll(indexes, Start(authoritative), entries).Timeline())
    ensures RecordedAll(indexes, FeedAll(indexes, Start(authoritative), entries), order, pushes)
    ensures var finished := Finished(FeedAll(indexes, Start(authoritative), entries).Timeline());
            && (forall c: nat :: c in extents <==> exists i :: 0 <= i < |pushes| && pushes[i].channel == c)
            && (forall c: nat ::
                c in extents ==> extents[c] == ExtentOf(pushes, finished.merged, finished.abandoned, c))
  {
    hide Sound;
    var acc := new TimelineAccumulator(authoritative);
    var spans := new ChannelSpans();
    var holding: map<(nat, nat), seq<ChunkIndex>> := map[];
    ghost var f := Start(authoritative);
    assert entries[0..] == entries;
    var i := 0;
    while i < |entries|
      invariant 0 <= i <= |entries|
      invariant fresh(acc) && fresh(spans)
      invariant At(acc, spans, f) && holding == f.holding
      invariant FeedAll(indexes, f, entries[i..]) == FeedAll(indexes, Start(authoritative), entries)
      decreases |entries| - i
    {
      FeedAllStep(indexes, f, entries, i);
      var taken;
      holding, taken := FeedEntryTo(indexes, acc, spans, entries[i..], holding, f);
      f := FeedEntry(indexes, f, entries[i..]);
      i := i + taken;
    }
    assert entries[i..] == [];
    order := PushHeld(indexes, spans, holding);
    pushes := spans.pushes;
    report, extents := FinishWithSpans(acc, spans);
  }

  /** Finishes the timeline and the channel spans recorded against its segments. */
  method FinishWithSpans(acc: TimelineAccumulator, spans: ChannelSpans)
    returns (report: Report, extents: map<nat, ChannelExtent>)
    requires acc.Valid() && spans.Valid()
    modifies acc
    ensures var finished := Finished(old(acc.Value()));
            && report == Finish(old(acc.Value()))
            && (forall c: nat :: c in extents <==> exists i :: 0 <= i < |spans.pushes| && spans.pushes[i].channel == c)
            && (forall c: nat ::
                c in extents ==> extents[c] == ExtentOf(spans.pushes, finished.merged, finished.abandoned, c))
  {
    hide Sound;
    report := acc.Finish();
    extents := spans.FinishMerged(acc.merged, acc.abandoned);
  }

  /** Records what the held chunks say about each channel. */
  method PushHeld(indexes: Indexes, spans: ChannelSpans, holding: map<(nat, nat), seq<ChunkIndex>>)
    returns (ghost order: seq<(nat, nat)>)
    requires spans.Valid()
    modifies spans
    ensures spans.Valid() && Enumerates(order, holding.Keys)
    ensures spans.pushes == old(spans.pushes) + AllHeldSpans(indexes, holding, order)
  {
    order := [];
    var left := holding.Keys;
    while left != {}
      invariant spans.Valid()
      invariant left <= holding.Keys && Enumerates(order, holding.Keys - left)
      invariant spans.pushes == old(spans.pushes) + AllHeldSpans(indexes, holding, order)
      decreases left
    {
      var key :| key in left;
      left := left - {key};
      PushHeldFor(indexes, spans, key, holding[key]);
      assert (order + [key])[..|order|] == order;
      order := order + [key];
    }
    assert holding.Keys - left == holding.Keys;
  }

  method PushHeldFor(indexes: Indexes, spans: ChannelSpans, key: (nat, nat), chunks: seq<ChunkIndex>)
    requires spans.Valid()
    modifies spans
    ensures spans.Valid() && spans.pushes == old(spans.pushes) + HeldSpans(indexes, key, chunks)
  {
    match indexes.channelExtent(chunks, key.1) {
      case Some(Some(extent)) => spans.Push(key.0, key.1, extent);
      case Some(None) =>
      case None =>
        for i := 0 to |chunks|
          invariant spans.Valid()
          invariant spans.pushes == old(spans.pushes) + HeldSpans(indexes, key, chunks)[..i]
        {
          spans.Push(key.0, key.1, Span(chunks[i].startTime, chunks[i].endTime));
        }
    }
  }
}
