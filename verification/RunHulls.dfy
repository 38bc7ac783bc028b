/** Channel extents of messages recorded in runs, each in a segment of its own, some
    message by message and some as chunks that stay compressed. */
module RunHulls {
  import opened Spans
  import opened Timeline
  import opened Conservation
  import opened ChannelSpan
  import opened Leak
  import opened Feed
  import opened FeedLoop
  import opened MessageIndexes

  // ---------------------------------------------------------------- a channel within a run

  /** The channel's log times in the run. */
  function ChannelTimes(run: seq<Stamp>, channel: nat): seq<nat> {
    if |run| == 0 then []
    else
      var n := |run| - 1;
      ChannelTimes(run[..n], channel) + if run[n].1 == channel then [run[n].0] else []
  }

  /** From the channel's least to its greatest log time in the run. */
  function RunHull(run: seq<Stamp>, channel: nat): Option<Span> {
    TimesHull(ChannelTimes(run, channel))
  }

  lemma {:induction false} ChannelTimesConcat(a: seq<Stamp>, b: seq<Stamp>, channel: nat)
    ensures ChannelTimes(a + b, channel) == ChannelTimes(a, channel) + ChannelTimes(b, channel)
  {
    if |b| == 0 {
      assert a + b == a;
    } else {
      var n := |b| - 1;
      assert (a + b)[..|a| + n] == a + b[..n];
      ChannelTimesConcat(a, b[..n], channel);
    }
  }

  lemma RunHullConcat(a: seq<Stamp>, b: seq<Stamp>, channel: nat)
    ensures RunHull(a + b, channel) == MergeOption(RunHull(a, channel), RunHull(b, channel))
  {
    ChannelTimesConcat(a, b, channel);
    TimesHullConcat(ChannelTimes(a, channel), ChannelTimes(b, channel));
  }

  lemma {:induction false} ChannelTimesMember(run: seq<Stamp>, channel: nat)
    ensures forall t <- ChannelTimes(run, channel) :: (t, channel) in run
  {
    if |run| > 0 {
      ChannelTimesMember(run[..|run| - 1], channel);
    }
  }

  // ---------------------------------------------------------------- a channel within a chunk

  function LogTimes(s: seq<Placing>): (r: seq<nat>)
    ensures |r| == |s|
    ensures forall i :: 0 <= i < |s| ==> r[i] == s[i].1
  {
    seq(|s|, i requires 0 <= i < |s| => s[i].1)
  }

  lemma {:induction false} ChannelTimesOf(messages: seq<Placing>, channel: nat)
    ensures ChannelTimes(Stamps(messages), channel) == LogTimes(Of(messages, channel))
  {
    if |messages| > 0 {
      var n := |messages| - 1;
      assert Stamps(messages)[..n] == Stamps(messages[..n]);
      ChannelTimesOf(messages[..n], channel);
    }
  }

  lemma SameLogTimes(a: seq<Placing>, b: seq<Placing>)
    requires multiset(a) == multiset(b)
    ensures TimesHull(LogTimes(a)) == TimesHull(LogTimes(b))
  {
    SubsetLogTimes(a, b);
    SubsetLogTimes(b, a);
    SameTimesHull(LogTimes(a), LogTimes(b));
  }

  lemma SubsetLogTimes(a: seq<Placing>, b: seq<Placing>)
    requires multiset(a) == multiset(b)
    ensures forall t <- LogTimes(a) :: t in LogTimes(b)
  {
    forall t | t in LogTimes(a)
      ensures t in LogTimes(b)
    {
      var i :| 0 <= i < |a| && LogTimes(a)[i] == t;
      assert a[i] in multiset(b);
      var j :| 0 <= j < |b| && b[j] == a[i];
      assert LogTimes(b)[j] == t;
    }
  }

  /** What a chunk's truthful index says of a channel is what its messages say. */
  lemma ChunkHull(read: Reader, chunk: ChunkIndex, messages: seq<Placing>, channel: nat)
    requires TruthfulIndexes(read, chunk, messages)
    ensures channel !in chunk.indexOffsets ==> RunHull(Stamps(messages), channel) == None
    ensures channel in chunk.indexOffsets ==>
              var times := TimesIn(read, chunk, channel);
              && times.Some? && TimesHull(times.value) == RunHull(Stamps(messages), channel)
              && forall t <- times.value :: exists i :: 0 <= i < |messages| && messages[i].1 == t
  {
    hide TimesHull, Of;
    ChannelTimesOf(messages, channel);
    if channel in chunk.indexOffsets {
      var index := read(chunk.indexOffsets[channel]).value;
      SameLogTimes(PlacingsOf(index), Of(messages, channel));
      assert LogTimes(PlacingsOf(index)) == MessageIndexes.Times(index);
      TimesAreLogged(index, messages, channel);
    } else {
      assert LogTimes(Of(messages, channel)) == [];
      NoTimesNoHull();
    }
  }

  lemma NoTimesNoHull()
    ensures TimesHull([]) == None
  {
  }

  lemma TimesAreLogged(index: IndexRecord, messages: seq<Placing>, channel: nat)
    requires multiset(PlacingsOf(index)) == multiset(Of(messages, channel))
    ensures forall t <- MessageIndexes.Times(index) :: exists i :: 0 <= i < |messages| && messages[i].1 == t
  {
    forall t | t in MessageIndexes.Times(index)
      ensures exists i :: 0 <= i < |messages| && messages[i].1 == t
    {
      var i :| 0 <= i < |index.records| && MessageIndexes.Times(index)[i] == t;
      assert PlacingsOf(index)[i] in multiset(Of(messages, channel));
      OfMembers(messages, channel);
      assert PlacingsOf(index)[i] in messages;
    }
  }

  lemma {:induction false} OfMembers(messages: seq<Placing>, channel: nat)
    ensures forall p <- Of(messages, channel) :: p in messages && p.2 == channel
  {
    if |messages| > 0 {
      OfMembers(messages[..|messages| - 1], channel);
    }
  }

  // ---------------------------------------------------------------- what has been recorded for a channel

  function HeldAt(holding: map<(nat, nat), seq<ChunkIndex>>, segment: nat, channel: nat): seq<ChunkIndex> {
    if (segment, channel) in holding then holding[(segment, channel)] else []
  }

  /** The hull of what was recorded for the channel in the segment, message by
      message or as held chunks. */
  function KeyHull(read: Reader, f: Feeding, segment: nat, channel: nat): Option<Span> {
    MergeOption(RawHull(f.pushes, segment, channel), HeldHull(read, HeldAt(f.holding, segment, channel), channel))
  }

  /** The hull that the runs give: those `done` in segments of their own, then `run`. */
  function HullAt(done: seq<seq<Stamp>>, run: seq<Stamp>, segment: nat, channel: nat): Option<Span> {
    if segment < |done| then RunHull(done[segment], channel)
    else if segment == |done| then RunHull(run, channel)
    else None
  }

  ghost predicate HullsHold(read: Reader, f: Feeding, done: seq<seq<Stamp>>, run: seq<Stamp>) {
    forall segment: nat, channel: nat {:trigger KeyHull(read, f, segment, channel)} ::
      KeyHull(read, f, segment, channel) == HullAt(done, run, segment, channel)
  }

  function EndOf(run: seq<Stamp>): int {
    if |run| == 0 then -1 else run[|run| - 1].0
  }

  /** Held chunks are in time order, and those of the open run no later than its end. */
  ghost predicate HeldOrdered(read: Reader, holding: map<(nat, nat), seq<ChunkIndex>>, open: nat, end: int) {
    forall key <- holding ::
      && key.0 <= open
      && ChunksOrdered(read, holding[key], key.1)
      && (key.0 == open ==> TimesBy(read, holding[key], key.1, end))
  }

  predicate AllPoints(pushes: seq<ChannelItem>) {
    forall i :: 0 <= i < |pushes| ==> pushes[i].span.start == pushes[i].span.end
  }

  ghost predicate Recorded(read: Reader, f: Feeding, done: seq<seq<Stamp>>, run: seq<Stamp>) {
    HullsHold(read, f, done, run) && HeldOrdered(read, f.holding, |done|, EndOf(run)) && AllPoints(f.pushes)
  }

  lemma MergeSwap(a: Option<Span>, b: Option<Span>, c: Option<Span>)
    ensures MergeOption(MergeOption(a, b), c) == MergeOption(MergeOption(a, c), b)
    ensures MergeOption(MergeOption(a, b), c) == MergeOption(a, MergeOption(b, c))
  {
  }

  lemma {:induction false} TimesByLater(read: Reader, chunks: seq<ChunkIndex>, channel: nat, t: int, u: int)
    requires TimesBy(read, chunks, channel, t) && t <= u
    ensures TimesBy(read, chunks, channel, u)
  {
    if |chunks| > 0 {
      TimesByLater(read, chunks[..|chunks| - 1], channel, t, u);
    }
  }

  lemma HeldLater(read: Reader, holding: map<(nat, nat), seq<ChunkIndex>>, open: nat, t: int, u: int)
    requires HeldOrdered(read, holding, open, t) && t <= u
    ensures HeldOrdered(read, holding, open, u)
  {
    hide ChunksOrdered, TimesBy;
    forall key: (nat, nat) | key in holding && key.0 == open
      ensures TimesBy(read, holding[key], key.1, u)
    {
      TimesByLater(read, holding[key], key.1, t, u);
    }
  }

  lemma PointHull(stamp: Stamp, channel: nat)
    ensures RunHull([stamp], channel) == if stamp.1 == channel then Some(Point(stamp.0)) else None
  {
    assert [stamp][..0] == [];
    assert ChannelTimes([], channel) == [];
    assert ChannelTimes([stamp], channel) == if stamp.1 == channel then [stamp.0] else [];
  }

  /** A message recorded on its own. */
  lemma PointRecorded(read: Reader, f: Feeding, g: Feeding, done: seq<seq<Stamp>>, run: seq<Stamp>, stamp: Stamp)
    requires Recorded(read, f, done, run) && EndOf(run) <= stamp.0
    requires g.pushes == f.pushes + [ChannelItem(|done|, stamp.1, Point(stamp.0))] && g.holding == f.holding
    ensures Recorded(read, g, done, run + [stamp])
  {
    hide RawHull, HeldHull, RunHull;
    HeldLater(read, f.holding, |done|, EndOf(run), stamp.0);
    assert EndOf(run + [stamp]) == stamp.0;
    forall segment: nat, channel: nat
      ensures KeyHull(read, g, segment, channel) == HullAt(done, run + [stamp], segment, channel)
    {
      assert KeyHull(read, f, segment, channel) == HullAt(done, run, segment, channel);
      RawMore(f.pushes, ChannelItem(|done|, stamp.1, Point(stamp.0)), segment, channel);
      RunHullConcat(run, [stamp], channel);
      PointHull(stamp, channel);
      MergeSwap(RawHull(f.pushes, segment, channel), Some(Point(stamp.0)),
          HeldHull(read, HeldAt(f.holding, segment, channel), channel));
    }
  }

  lemma RawMore(pushes: seq<ChannelItem>, item: ChannelItem, segment: nat, channel: nat)
    ensures RawHull(pushes + [item], segment, channel) ==
            if item.segment == segment && item.channel == channel
                then MergeOption(RawHull(pushes, segment, channel), Some(item.span))
            else RawHull(pushes, segment, channel)
  {
    assert (pushes + [item])[..|pushes|] == pushes;
  }

  lemma HeldMore(read: Reader, chunks: seq<ChunkIndex>, chunk: ChunkIndex, channel: nat)
    requires TimesIn(read, chunk, channel).Some?
    ensures HeldHull(read, chunks + [chunk], channel) ==
            MergeOption(HeldHull(read, chunks, channel), TimesHull(TimesIn(read, chunk, channel).value))
  {
    assert (chunks + [chunk])[..|chunks|] == chunks;
  }

  /** A chunk held, its messages continuing the run. */
  lemma ChunkHulls(read: Reader, f: Feeding, g: Feeding, done: seq<seq<Stamp>>, run: seq<Stamp>,
                   chunk: ChunkIndex, messages: seq<Placing>)
    requires HullsHold(read, f, done, run) && TruthfulIndexes(read, chunk, messages)
    requires g.pushes == f.pushes && g.holding == Hold(f.holding, |done|, chunk, chunk.indexOffsets.Keys)
    ensures HullsHold(read, g, done, run + Stamps(messages))
  {
    hide RawHull, HeldHull, RunHull, TruthfulIndexes, TimesIn, TimesHull;
    forall segment: nat, channel: nat
      ensures KeyHull(read, g, segment, channel) == HullAt(done, run + Stamps(messages), segment, channel)
    {
      assert KeyHull(read, f, segment, channel) == HullAt(done, run, segment, channel);
      if segment == |done| {
        var before := HeldAt(f.holding, segment, channel);
        ChunkHull(read, chunk, messages, channel);
        RunHullConcat(run, Stamps(messages), channel);
        if channel in chunk.indexOffsets {
          assert HeldAt(g.holding, segment, channel) == before + [chunk];
          HeldMore(read, before, chunk, channel);
          MergeSwap(RawHull(f.pushes, segment, channel), HeldHull(read, before, channel),
              RunHull(Stamps(messages), channel));
        } else {
          assert HeldAt(g.holding, segment, channel) == before;
        }
      } else {
        assert HeldAt(g.holding, segment, channel) == HeldAt(f.holding, segment, channel);
      }
    }
  }

  lemma ChunkOrdered(read: Reader, holding: map<(nat, nat), seq<ChunkIndex>>, open: nat, end: int, later: int,
                     chunk: ChunkIndex, messages: seq<Placing>)
    requires HeldOrdered(read, holding, open, end) && TruthfulIndexes(read, chunk, messages)
    requires forall i :: 0 <= i < |messages| ==> end <= messages[i].1 <= later
    requires end <= later
    ensures HeldOrdered(read, Hold(holding, open, chunk, chunk.indexOffsets.Keys), open, later)
  {
    hide TruthfulIndexes, TimesIn, ChunksOrdered, TimesBy;
    var held := Hold(holding, open, chunk, chunk.indexOffsets.Keys);
    HeldLater(read, holding, open, end, later);
    forall key: (nat, nat) | key in held
      ensures key.0 <= open && ChunksOrdered(read, held[key], key.1)
      ensures key.0 == open ==> TimesBy(read, held[key], key.1, later)
    {
      if key.0 == open && key.1 in chunk.indexOffsets {
        var before := if key in holding then holding[key] else [];
        assert held[key] == before + [chunk];
        ChunkHull(read, chunk, messages, key.1);
        NothingOrdered(read, key.1, end);
        OneMoreOrdered(read, before, chunk, key.1, end, later);
      }
    }
  }

  lemma NothingOrdered(read: Reader, channel: nat, end: int)
    ensures ChunksOrdered(read, [], channel) && TimesBy(read, [], channel, end)
  {
  }

  lemma OneMoreOrdered(read: Reader, chunks: seq<ChunkIndex>, chunk: ChunkIndex, channel: nat,
                       end: int, later: int)
    requires ChunksOrdered(read, chunks, channel) && TimesBy(read, chunks, channel, end) && end <= later
    requires TimesIn(read, chunk, channel).Some?
    requires forall t <- TimesIn(read, chunk, channel).value :: end <= t <= later
    ensures ChunksOrdered(read, chunks + [chunk], channel) && TimesBy(read, chunks + [chunk], channel, later)
  {
    hide TimesIn;
    assert (chunks + [chunk])[..|chunks|] == chunks;
    forall t | t in TimesIn(read, chunk, channel).value
      ensures TimesBy(read, chunks, channel, t)
    {
      TimesByLater(read, chunks, channel, end, t);
    }
    TimesByLater(read, chunks, channel, end, later);
  }

  lemma ChunkRecorded(read: Reader, f: Feeding, g: Feeding, done: seq<seq<Stamp>>, run: seq<Stamp>,
                      chunk: ChunkIndex, messages: seq<Placing>)
    requires Recorded(read, f, done, run) && TruthfulIndexes(read, chunk, messages) && |messages| > 0
    requires g.pushes == f.pushes && g.holding == Hold(f.holding, |done|, chunk, chunk.indexOffsets.Keys)
    requires forall i :: 0 <= i < |messages| ==> EndOf(run) <= messages[i].1 <= messages[|messages| - 1].1
    ensures Recorded(read, g, done, run + Stamps(messages))
  {
    hide HullsHold, HeldOrdered, TruthfulIndexes;
    var later := messages[|messages| - 1].1;
    assert EndOf(run) <= later;
    assert EndOf(run + Stamps(messages)) == later;
    ChunkHulls(read, f, g, done, run, chunk, messages);
    ChunkOrdered(read, f.holding, |done|, EndOf(run), later, chunk, messages);
  }

  /** A record ends the run. */
  lemma RunEnds(read: Reader, f: Feeding, g: Feeding, done: seq<seq<Stamp>>, run: seq<Stamp>)
    requires Recorded(read, f, done, run) && g.pushes == f.pushes && g.holding == f.holding
    ensures Recorded(read, g, done + [run], [])
  {
    hide RawHull, HeldHull, ChunksOrdered, TimesBy;
    forall segment: nat, channel: nat
      ensures KeyHull(read, g, segment, channel) == HullAt(done + [run], [], segment, channel)
    {
      assert KeyHull(read, f, segment, channel) == HullAt(done, run, segment, channel);
      assert ChannelTimes([], channel) == [];
    }
  }

  lemma NothingRecorded(read: Reader, f: Feeding)
    requires f.pushes == [] && f.holding == map[]
    ensures Recorded(read, f, [], [])
  {
    forall segment: nat, channel: nat
      ensures KeyHull(read, f, segment, channel) == HullAt([], [], segment, channel)
    {
      assert ChannelTimes([], channel) == [];
    }
  }

  // ---------------------------------------------------------------- the channel extents reported

  function RunHullLengths(runs: seq<seq<Stamp>>, channel: nat): (r: seq<nat>)
    ensures |r| == |runs|
    ensures forall i :: 0 <= i < |runs| ==> r[i] == LenOption(RunHull(runs[i], channel))
  {
    seq(|runs|, i requires 0 <= i < |runs| => LenOption(RunHull(runs[i], channel)))
  }

  function RunPresence(runs: seq<seq<Stamp>>, channel: nat): (r: seq<nat>)
    ensures |r| == |runs|
    ensures forall i :: 0 <= i < |runs| ==> r[i] == if RunHull(runs[i], channel).Some? then 1 else 0
  {
    seq(|runs|, i requires 0 <= i < |runs| => if RunHull(runs[i], channel).Some? then 1 else 0)
  }

  predicate TimesFit(runs: seq<seq<Stamp>>) {
    forall k, i :: 0 <= k < |runs| && 0 <= i < |runs[k]| ==> InU64(runs[k][i].0)
  }

  lemma {:induction false} RawConcat(a: seq<ChannelItem>, b: seq<ChannelItem>, segment: nat, channel: nat)
    ensures RawHull(a + b, segment, channel) == MergeOption(RawHull(a, segment, channel), RawHull(b, segment, channel))
  {
    if |b| == 0 {
      assert a + b == a;
    } else {
      var n := |b| - 1;
      assert a + b == a + b[..n] + [b[n]];
      assert b == b[..n] + [b[n]];
      RawConcat(a, b[..n], segment, channel);
      RawMore(a + b[..n], b[n], segment, channel);
      RawMore(b[..n], b[n], segment, channel);
      MergeSwap(RawHull(a, segment, channel), RawHull(b[..n], segment, channel), Some(b[n].span));
    }
  }

  /** What held chunks in time order add for their key, and for no other. */
  lemma HeldSpansHull(read: Reader, key: (nat, nat), chunks: seq<ChunkIndex>, segment: nat,
                      channel: nat)
    requires ChunksOrdered(read, chunks, key.1)
    ensures RawHull(HeldSpans(IndexesOf(read), key, chunks), segment, channel) ==
            if key == (segment, channel) then HeldHull(read, chunks, channel) else None
  {
    hide ChunksOrdered, HeldHull, ExtentIn;
    ExtentIsHull(read, chunks, key.1);
    match ExtentIn(read, chunks, key.1)
    case Some(Some(extent)) =>
      var item := ChannelItem(key.0, key.1, extent);
      assert [] + [item] == [item];
      RawMore([], item, segment, channel);
    case Some(None) =>
  }

  lemma {:induction false} AllHeldHull(read: Reader, holding: map<(nat, nat), seq<ChunkIndex>>,
                                       order: seq<(nat, nat)>, segment: nat, channel: nat)
    requires forall k :: k in order ==> k in holding
    requires forall i, j :: 0 <= i < j < |order| ==> order[i] != order[j]
    requires forall key <- holding :: ChunksOrdered(read, holding[key], key.1)
    ensures RawHull(AllHeldSpans(IndexesOf(read), holding, order), segment, channel) ==
            if (segment, channel) in order then HeldHull(read, holding[(segment, channel)], channel) else None
  {
    hide ChunksOrdered, HeldHull, HeldSpans, RawHull;
    if |order| == 0 {
      NoItemsNoHull(segment, channel);
    } else {
      var n := |order| - 1;
      AllHeldHull(read, holding, order[..n], segment, channel);
      HeldSpansHull(read, order[n], holding[order[n]], segment, channel);
      RawConcat(AllHeldSpans(IndexesOf(read), holding, order[..n]),
          HeldSpans(IndexesOf(read), order[n], holding[order[n]]), segment, channel);
      assert order == order[..n] + [order[n]];
    }
  }

  lemma NoItemsNoHull(segment: nat, channel: nat)
    ensures RawHull([], segment, channel) == None
  {
  }

  /** Without joins a channel's hull in a segment is what was recorded there. */
  lemma {:induction false} ChannelHullIsRaw(pushes: seq<ChannelItem>, segment: nat, channel: nat)
    requires forall i :: 0 <= i < |pushes| ==> pushes[i].span.Fits()
    ensures ChannelHull(pushes, [], [], segment, channel) == RawHull(pushes, segment, channel)
  {
    if |pushes| > 0 {
      var n := |pushes| - 1;
      ChannelHullIsRaw(pushes[..n], segment, channel);
      assert pushes[n].span.Shifted(0) == pushes[n].span;
    }
  }

  lemma {:induction false} HeldHullForward(read: Reader, chunks: seq<ChunkIndex>, channel: nat)
    ensures var hull := HeldHull(read, chunks, channel);
            hull.Some? ==> hull.value.start <= hull.value.end
  {
    if |chunks| > 0 {
      HeldHullForward(read, chunks[..|chunks| - 1], channel);
    }
  }

  ghost predicate Forward(pushes: seq<ChannelItem>) {
    forall i :: 0 <= i < |pushes| ==> pushes[i].span.start <= pushes[i].span.end
  }

  lemma HeldSpansForward(read: Reader, key: (nat, nat), chunks: seq<ChunkIndex>)
    requires ChunksOrdered(read, chunks, key.1)
    ensures Forward(HeldSpans(IndexesOf(read), key, chunks))
  {
    hide ChunksOrdered, HeldHull, ExtentIn;
    ExtentIsHull(read, chunks, key.1);
    HeldHullForward(read, chunks, key.1);
  }

  lemma {:induction false} AllHeldForward(read: Reader, holding: map<(nat, nat), seq<ChunkIndex>>,
                                          order: seq<(nat, nat)>)
    requires forall k :: k in order ==> k in holding
    requires forall key <- holding :: ChunksOrdered(read, holding[key], key.1)
    ensures Forward(AllHeldSpans(IndexesOf(read), holding, order))
  {
    hide ChunksOrdered, HeldSpans;
    if |order| > 0 {
      var n := |order| - 1;
      AllHeldForward(read, holding, order[..n]);
      HeldSpansForward(read, order[n], holding[order[n]]);
    }
  }

  /** Everything recorded, and nothing else, is in the runs. */
  ghost predicate RawIsRuns(pushes: seq<ChannelItem>, runs: seq<seq<Stamp>>) {
    forall segment: nat, channel: nat {:trigger RawHull(pushes, segment, channel)} ::
      RawHull(pushes, segment, channel) == if segment < |runs| then RunHull(runs[segment], channel) else None
  }

  lemma RecordedIsRuns(read: Reader, f: Feeding, runs: seq<seq<Stamp>>, order: seq<(nat, nat)>,
                       pushes: seq<ChannelItem>)
    requires |runs| > 0 && Recorded(read, f, runs[..|runs| - 1], runs[|runs| - 1])
    requires RecordedAll(IndexesOf(read), f, order, pushes)
    ensures RawIsRuns(pushes, runs)
  {
    hide RawHull, HeldHull, RunHull, ChunksOrdered, TimesBy, AllHeldSpans, IndexesOf;
    var n := |runs| - 1;
    forall segment: nat, channel: nat
      ensures RawHull(pushes, segment, channel) == if segment < |runs| then RunHull(runs[segment], channel) else None
    {
      assert KeyHull(read, f, segment, channel) == HullAt(runs[..n], runs[n], segment, channel);
      RawConcat(f.pushes, AllHeldSpans(IndexesOf(read), f.holding, order), segment, channel);
      AllHeldHull(read, f.holding, order, segment, channel);
      NoChunksNoHull(read, channel);
    }
  }

  lemma NoChunksNoHull(read: Reader, channel: nat)
    ensures HeldHull(read, [], channel) == None
  {
  }

  lemma RecordedForward(read: Reader, f: Feeding, runs: seq<seq<Stamp>>, order: seq<(nat, nat)>,
                        pushes: seq<ChannelItem>)
    requires |runs| > 0 && Recorded(read, f, runs[..|runs| - 1], runs[|runs| - 1])
    requires RecordedAll(IndexesOf(read), f, order, pushes)
    ensures Forward(pushes)
  {
    hide HullsHold, ChunksOrdered, TimesBy, AllHeldSpans, IndexesOf;
    AllHeldForward(read, f.holding, order);
  }

  lemma RunHullFits(run: seq<Stamp>, channel: nat)
    requires forall i :: 0 <= i < |run| ==> InU64(run[i].0)
    ensures RunHull(run, channel).Some? ==> RunHull(run, channel).value.Fits()
  {
    ChannelTimesMember(run, channel);
  }

  /** Each span recorded is in a run's segment and within the 64-bit range. */
  lemma ItemInRun(pushes: seq<ChannelItem>, runs: seq<seq<Stamp>>, i: nat)
    requires i < |pushes| && RawIsRuns(pushes, runs) && Forward(pushes) && TimesFit(runs)
    ensures pushes[i].segment < |runs| && pushes[i].span.Fits()
  {
    hide RawHull, RunHull;
    var item := pushes[i];
    RawHullIsHull(pushes, item.segment, item.channel);
    assert item.span in RawMembers(pushes, item.segment, item.channel);
    assert RawHull(pushes, item.segment, item.channel).Some?;
    assert item.segment < |runs|;
    RunHullFits(runs[item.segment], item.channel);
  }

  lemma {:induction false} BoundByRuns(pushes: seq<ChannelItem>, count: nat)
    requires forall i :: 0 <= i < |pushes| ==> pushes[i].segment < count
    ensures SegmentBound(pushes, []) <= count
  {
    if |pushes| > 0 {
      BoundByRuns(pushes[..|pushes| - 1], count);
    }
  }

  /** A channel's extent is the sum of its extents in the runs. */
  lemma ExtentOfRuns(pushes: seq<ChannelItem>, runs: seq<seq<Stamp>>, channel: nat)
    requires RawIsRuns(pushes, runs) && Forward(pushes) && TimesFit(runs)
    ensures ExtentOf(pushes, [], [], channel)
         == ChannelExtent(Sum(RunHullLengths(runs, channel)), Sum(RunPresence(runs, channel)))
  {
    hide RawHull, RunHull, ChannelHull, Forward, TimesFit;
    forall i | 0 <= i < |pushes|
      ensures pushes[i].segment < |runs| && pushes[i].span.Fits()
    {
      ItemInRun(pushes, runs, i);
    }
    BoundByRuns(pushes, |runs|);
    ExtentStable(pushes, [], [], channel, |runs|);
    forall k: nat | k < |runs|
      ensures ChannelHull(pushes, [], [], k, channel) == RunHull(runs[k], channel)
    {
      ChannelHullIsRaw(pushes, k, channel);
    }
    assert ChannelLengths(pushes, [], [], channel, |runs|) == RunHullLengths(runs, channel);
    assert ChannelPresence(pushes, [], [], channel, |runs|) == RunPresence(runs, channel);
  }
}
