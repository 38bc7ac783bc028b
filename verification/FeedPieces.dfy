/** Files without clock steps: they last as long as their pieces, told from the entries. */
module FeedPieces {
  import opened Spans
  import opened Timeline
  import opened Conservation
  import opened StrayExcursion
  import opened SpanPieces
  import opened Leak
  import opened Feed
  import opened FeedLoop

  /** The spans that an entry stands for: its messages' times; for a chunk too long to
      be taken whole those of the messages it is known to hold; for any other chunk its
      range, unless nothing is in it. */
  function EntrySpans(indexes: Indexes, entry: Entry): seq<Span> {
    match entry
    case StepEntry(_) => []
    case MessagesEntry(times) => PointSpans(times)
    case ChunkEntry(chunk) =>
      if |chunk.indexOffsets| == 0 && chunk.startTime == 0 == chunk.endTime then []
      else if chunk.endTime > chunk.startTime + STEP_GAP_NS && indexes.messageTimes(chunk).Some? then
        PointSpans(indexes.messageTimes(chunk).value)
      else [Span(chunk.startTime, chunk.endTime)]
  }

  function PointSpans(times: seq<Stamp>): (spans: seq<Span>)
    ensures |spans| == |times| && forall i :: 0 <= i < |times| ==> spans[i] == Span(times[i].0, times[i].0)
  {
    seq(|times|, i requires 0 <= i < |times| => Span(times[i].0, times[i].0))
  }

  function AllSpans(indexes: Indexes, entries: seq<Entry>): seq<Span> {
    if |entries| == 0 then [] else EntrySpans(indexes, entries[0]) + AllSpans(indexes, entries[1..])
  }

  predicate WithoutSteps(entries: seq<Entry>) {
    forall entry <- entries :: !entry.StepEntry?
  }

  lemma {:induction false} PointsFed(f: Feeding, times: seq<Stamp>)
    ensures PushPoints(f, times).Timeline() == PushAll(f.Timeline(), PointSpans(times))
  {
    if |times| > 0 {
      var n := |times| - 1;
      PointsFed(f, times[..n]);
      CallTimeline(PushPoints(f, times[..n]), Pushed(Point(times[n].0)));
      assert PointSpans(times)[..n] == PointSpans(times[..n]);
    }
  }

  lemma EntryFed(indexes: Indexes, f: Feeding, entries: seq<Entry>)
    requires |entries| > 0 && WithoutSteps(entries)
    ensures !TakesNext(entries)
    ensures FeedEntry(indexes, f, entries).Timeline() == PushAll(f.Timeline(), EntrySpans(indexes, entries[0]))
  {
    hide PushAll, PushPoints, Push;
    assert entries[0] in entries && (|entries| > 1 ==> entries[1] in entries);
    PushNone(f.Timeline());
    match entries[0]
    case MessagesEntry(times) => PointsFed(f, times);
    case ChunkEntry(chunk) =>
      var times := ResolvedTimes(indexes, chunk, false);
      if times.Some? {
        PointsFed(f, times.value);
      }
      PushOne(f.Timeline(), Span(chunk.startTime, chunk.endTime));
      CallTimeline(f, Pushed(Span(chunk.startTime, chunk.endTime)));
  }

  lemma PushNone(s: State)
    ensures PushAll(s, []) == s
  {
  }

  lemma PushOne(s: State, span: Span)
    ensures PushAll(s, [span]) == Push(s, span)
  {
    assert [span][..0] == [];
    PushNone(s);
  }

  lemma {:induction false} StepFreeFed(indexes: Indexes, f: Feeding, entries: seq<Entry>)
    requires WithoutSteps(entries)
    ensures FeedAll(indexes, f, entries).Timeline() == PushAll(f.Timeline(), AllSpans(indexes, entries))
    decreases |entries|
  {
    if |entries| > 0 {
      hide EntrySpans, FeedEntry, TakesNext;
      EntryFed(indexes, f, entries);
      assert WithoutSteps(entries[1..]) by {
        assert forall entry <- entries[1..] :: entry in entries;
      }
      StepFreeFed(indexes, FeedEntry(indexes, f, entries), entries[1..]);
      PushAllConcat(f.Timeline(), EntrySpans(indexes, entries[0]), AllSpans(indexes, entries[1..]));
    }
  }

  /** A file without clock steps, whatever its messages and chunks: unless data comes back
      after a short stay elsewhere, it lasts as long as its pieces together. */
  lemma StepFreeFileMeasured(indexes: Indexes, authoritative: bool, entries: seq<Entry>)
    requires WithoutSteps(entries)
    requires var spans := AllSpans(indexes, entries);
             NoneComesBack(spans) && Measured(authoritative, spans) <= U64_MAX
    ensures var spans := AllSpans(indexes, entries);
            Finish(FeedAll(indexes, Feed.Start(authoritative), entries).Timeline())
            == Report(Measured(authoritative, spans), if authoritative then 0 else JumpCount(spans))
  {
    StepFreeFed(indexes, Feed.Start(authoritative), entries);
    PiecesAreMeasured(authoritative, AllSpans(indexes, entries));
  }
}
