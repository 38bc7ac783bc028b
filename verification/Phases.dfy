/** How the timeline and the channel spans stand while the entries of an interrupted
    recording are fed: within a run, across a leak far from its run, and in one close to it. */
module Phases {
  import opened Spans
  import opened Timeline
  import opened Conservation
  import opened ChannelSpan
  import opened Leak
  import opened Feed
  import opened FeedLoop
  import opened MessageIndexes
  import opened RunHulls
  import opened Sections

  // ---------------------------------------------------------------- where feeding has got to

  /** Pieces over, each with messages, and steps counted; a jump opened the piece that has
      begun when `pending`; channels are followed too when `channels`. */
  datatype Phase = Phase(done: seq<seq<Stamp>>, steps: nat, pending: Option<Gap>, channels: bool)

  function Total(pieces: seq<seq<Stamp>>): nat {
    Sum(Each(PieceLength, pieces))
  }

  /** The hull of the open segment. */
  function OpenExtent(s: State): Option<Span> {
    match s.last
    case None => None
    case Some(last) => Some(Extent(s.earlier, last))
  }

  predicate OnRun(s: State, p: Phase, run: seq<Stamp>) {
    && s.gap == p.pending && s.merged == [] && s.abandoned == []
    && s.segment == s.nextSegment == |p.done| && s.steps == p.steps
    && s.total == Total(p.done)
    && OpenExtent(s) == HullOf(run) && (s.last == None ==> s.earlier == None)
  }

  ghost predicate AtRun(read: Reader, f: Feeding, p: Phase, run: seq<Stamp>) {
    OnRun(f.Timeline(), p, run) && LastEnd(f) == LastOf(run) && (p.channels ==> Recorded(read, f, p.done, run))
  }

  /** A piece opened by a jump stays open as long as it is short. */
  predicate KeepsOpen(p: Phase, run: seq<Stamp>) {
    p.pending.Some? ==> RunLength(run) <= STEP_GAP_NS
  }

  /** Pushing close to where the data ends. */
  lemma PushOn(s: State, p: Phase, run: seq<Stamp>, more: seq<Stamp>, span: Span)
    requires OnRun(s, p, run) && HullOf(more) == Some(span)
    requires s.last.Some? ==> Abs(span.start - s.last.value.end) <= STEP_GAP_NS
    requires p.pending.Some? ==> PieceLength(run + more) <= STEP_GAP_NS
    ensures OnRun(Push(s, span), p, run + more) && Push(s, span).segment == |p.done| && Push(s, span).last == Some(span)
  {
    hide HullOf, Total;
    HullConcat(run, more);
    assert AfterJump(s, span) == s;
    var t := Extend(s, span);
    assert OpenExtent(t) == HullOf(run + more);
    assert SettleIfLong(t) == t;
  }

  lemma PushIsLast(s: State, span: Span)
    ensures Push(s, span).last == Some(span)
  {
  }

  lemma ShortPrefix(p: Phase, run: seq<Stamp>, d: nat, n: nat)
    requires SteadyRun(run, d) && n <= |run| && KeepsOpen(p, run)
    ensures KeepsOpen(p, run[..n])
  {
    hide SteadyRun;
    if n > 0 {
      RunOrder(run, d, n - 1, |run| - 1);
    }
  }

  /** Data continuing a run, pushed as one span, extends the open segment. */
  lemma PushOnRun(s: State, p: Phase, run: seq<Stamp>, more: seq<Stamp>, d: nat)
    requires OnRun(s, p, run) && |more| > 0 && SteadyRun(run + more, d) && d <= STEP_GAP_NS && KeepsOpen(p, run + more)
    requires |run| > 0 ==> s.last.Some? && s.last.value.end == run[|run| - 1].0
    ensures var span := Span(more[0].0, more[|more| - 1].0);
            && OnRun(Push(s, span), p, run + more) && Push(s, span).segment == |p.done|
            && Push(s, span).last == Some(span)
  {
    hide SteadyRun, HullOf, PieceLength, RunLength, Total, Push;
    var whole := run + more;
    HullOfSteady(whole, d);
    assert whole[|run|..] == more;
    SteadySuffix(whole, d, |run|);
    HullOfSteady(more, d);
    if |run| > 0 {
      Follow(whole, d, |run|);
    } else {
      EmptyHull(run);
    }
    PushOn(s, p, run, more, Span(more[0].0, more[|more| - 1].0));
  }

  lemma EmptyHull(run: seq<Stamp>)
    requires run == []
    ensures HullOf(run) == None
  {
  }

  lemma PushOne(read: Reader, f: Feeding, p: Phase, run: seq<Stamp>, stamp: Stamp, d: nat)
    requires AtRun(read, f, p, run) && SteadyRun(run + [stamp], d) && d <= STEP_GAP_NS && KeepsOpen(p, run + [stamp])
    ensures AtRun(read, PushPoint(f, stamp), p, run + [stamp])
  {
    hide OnRun, Recorded, Push, SteadyRun, KeepsOpen;
    CallTimeline(f, Pushed(Point(stamp.0)));
    RunEnd(f, p, run);
    PushOnRun(f.Timeline(), p, run, [stamp], d);
    if |run| > 0 {
      Follow(run + [stamp], d, |run|);
    }
    if p.channels {
      PointRecorded(read, f, PushPoint(f, stamp), p.done, run, stamp);
    }
  }

  lemma RunEnd(f: Feeding, p: Phase, run: seq<Stamp>)
    requires OnRun(f.Timeline(), p, run) && LastEnd(f) == LastOf(run)
    ensures |run| > 0 ==> f.Timeline().last.Some? && f.Timeline().last.value.end == run[|run| - 1].0
  {
  }

  lemma {:induction false} PushMany(read: Reader, f: Feeding, p: Phase, run: seq<Stamp>, more: seq<Stamp>, d: nat)
    requires AtRun(read, f, p, run) && SteadyRun(run + more, d) && d <= STEP_GAP_NS && KeepsOpen(p, run + more)
    ensures AtRun(read, PushPoints(f, more), p, run + more)
  {
    hide AtRun, PushPoint, SteadyRun, KeepsOpen;
    if |more| == 0 {
      assert run + more == run;
    } else {
      var n := |more| - 1;
      assert (run + more)[..|run| + n] == run + more[..n];
      SteadyPrefix(run + more, d, |run| + n);
      ShortPrefix(p, run + more, d, |run| + n);
      PushMany(read, f, p, run, more[..n], d);
      assert run + more == run + more[..n] + [more[n]];
      PushOne(read, PushPoints(f, more[..n]), p, run + more[..n], more[n], d);
    }
  }

  lemma PackedFollows(run: seq<Stamp>, messages: seq<Placing>, d: nat)
    requires SteadyRun(run + Stamps(messages), d)
    ensures forall i :: 0 <= i < |messages| ==> EndOf(run) <= messages[i].1 <= messages[|messages| - 1].1
  {
    hide SteadyRun;
    var whole := run + Stamps(messages);
    forall i | 0 <= i < |messages|
      ensures EndOf(run) <= messages[i].1 <= messages[|messages| - 1].1
    {
      assert whole[|run| + i] == Stamps(messages)[i];
      if |run| > 0 {
        RunOrder(whole, d, |run| - 1, |run| + i);
      }
      RunOrder(whole, d, |run| + i, |run| + |messages| - 1);
    }
  }

  /** What is known of a chunk that continues the run. */
  lemma PackedFacts(read: Reader, run: seq<Stamp>, part: Part, d: nat)
    requires part.Packed? && TruthfulPart(read, part) && SteadyRun(run + part.Data(), d)
    ensures var more := part.Data();
            && |more| > 0 && Span(part.chunk.startTime, part.chunk.endTime) == Span(more[0].0, more[|more| - 1].0)
            && |part.messages| > 0 && TruthfulIndexes(read, part.chunk, part.messages) && more == Stamps(part.messages)
  {
    hide SteadyRun, TruthfulIndexes, HeaderIs;
    var more := part.Data();
    var whole := run + more;
    assert whole[|run|..] == more;
    SteadySuffix(whole, d, |run|);
    HeaderOfSteady(part.chunk, part.messages, d);
  }

  /** A chunk continuing the run, pushed unexpanded. */
  lemma PushPacked(read: Reader, f: Feeding, p: Phase, run: seq<Stamp>, part: Part, d: nat)
    requires part.Packed? && TruthfulPart(read, part)
    requires AtRun(read, f, p, run) && SteadyRun(run + part.Data(), d) && d <= STEP_GAP_NS
             && KeepsOpen(p, run + part.Data())
    ensures AtRun(read, PushChunk(f, part.chunk), p, run + part.Data())
  {
    hide OnRun, Recorded, Push, SteadyRun, TruthfulIndexes, TruthfulPart, Hold, EndOf, Run, part.Data, KeepsOpen;
    PackedFacts(read, run, part, d);
    CallTimeline(f, Pushed(Span(part.chunk.startTime, part.chunk.endTime)));
    RunEnd(f, p, run);
    PushOnRun(f.Timeline(), p, run, part.Data(), d);
    PushedSegment(f, part.chunk);
    if p.channels {
      PackedFollows(run, part.messages, d);
      ChunkRecorded(read, f, PushChunk(f, part.chunk), p.done, run, part.chunk, part.messages);
    }
  }

  lemma PushedSegment(f: Feeding, chunk: ChunkIndex)
    ensures var span := Span(chunk.startTime, chunk.endTime);
            var g := PushChunk(f, chunk);
            && g.Timeline() == Call(f, Pushed(span)).Timeline() && g.pushes == f.pushes
            && g.holding == Hold(f.holding, g.Timeline().segment, chunk, chunk.indexOffsets.Keys)
  {
    hide Hold;
  }

  // ---------------------------------------------------------------- records between runs

  function Add(done: seq<seq<Stamp>>, piece: seq<Stamp>): seq<seq<Stamp>> {
    if |piece| == 0 then done else done + [piece]
  }

  /** The phase once a record has ended a piece. */
  function Ended(p: Phase, piece: seq<Stamp>): Phase {
    Phase(Add(p.done, piece), p.steps + 1, None, p.channels)
  }

  lemma TotalMore(done: seq<seq<Stamp>>, piece: seq<Stamp>)
    ensures Total(Add(done, piece)) == Total(done) + PieceLength(piece)
  {
    hide PieceLength;
    if |piece| > 0 {
      var more := done + [piece];
      assert Each(PieceLength, more)[..|done|] == Each(PieceLength, done);
    } else {
      NoLength(piece);
    }
  }

  lemma NoLength(piece: seq<Stamp>)
    requires piece == []
    ensures PieceLength(piece) == 0
  {
  }

  /** A record that describes no jump ends the piece. */
  lemma StepEnds(s: State, p: Phase, piece: seq<Stamp>, step: int)
    requires OnRun(s, p, piece) && p.pending == None && Total(p.done) + PieceLength(piece) <= U64_MAX
    ensures var t := RecordStep(s, step, false); OnRun(t, Ended(p, piece), []) && t.last == None
  {
    hide Total;
    TotalMore(p.done, piece);
    EmptyHull([]);
    if |piece| > 0 {
      HullCovers(piece);
    }
  }

  lemma RecordedIsSame(read: Reader, f: Feeding, g: Feeding, done: seq<seq<Stamp>>, run: seq<Stamp>)
    requires Recorded(read, f, done, run) && g.pushes == f.pushes && g.holding == f.holding
    ensures Recorded(read, g, Add(done, run), [])
  {
    hide RawHull, HeldHull, HeldOrdered;
    if |run| > 0 {
      RunEnds(read, f, g, done, run);
    } else {
      assert run == [];
      forall segment: nat, channel: nat
        ensures KeyHull(read, g, segment, channel) == HullAt(done, [], segment, channel)
      {
        assert KeyHull(read, f, segment, channel) == HullAt(done, run, segment, channel);
      }
    }
  }

  lemma StepBetweenRuns(read: Reader, f: Feeding, p: Phase, run: seq<Stamp>, step: int)
    requires AtRun(read, f, p, run) && p.pending == None && Total(p.done) + PieceLength(run) <= U64_MAX
    ensures AtRun(read, Call(f, Stepped(step)), Ended(p, run), [])
  {
    hide Recorded, OnRun, RecordStep;
    CallTimeline(f, Stepped(step));
    StepEnds(f.Timeline(), p, run, step);
    if p.channels {
      RecordedIsSame(read, f, Call(f, Stepped(step)), p.done, run);
    }
  }

  // ---------------------------------------------------------------- leaks far from their run

  /** `q` is the phase `p` once the jump to log time `t` has ended `run`. */
  predicate OpenedFar(p: Phase, run: seq<Stamp>, t: int, q: Phase) {
    && |run| > 0 && q.done == p.done + [run] && q.channels == p.channels && q.pending.Some?
    && q.pending.value.at == t && q.pending.value.jump == t - run[|run| - 1].0
    && q.steps == p.steps + if q.pending.value.kind.StepGap? then 1 else 0
  }

  /** The jump to a far span opens a segment for it. */
  lemma OpenFar(s: State, p: Phase, run: seq<Stamp>, more: seq<Stamp>, span: Span) returns (q: Phase)
    requires OnRun(s, p, run) && p.pending == None && |run| > 0 && HullOf(more) == Some(span)
    requires s.last.Some? && s.last.value.end == run[|run| - 1].0 && FarFrom(run[|run| - 1].0, span.start)
    requires span.Len() <= STEP_GAP_NS && Total(p.done) + PieceLength(run) <= U64_MAX
    ensures OpenedFar(p, run, span.start, q)
    ensures OnRun(Push(s, span), q, more) && Push(s, span).segment == |q.done| && Push(s, span).last == Some(span)
  {
    hide HullOf, Total;
    var jump := span.start - s.last.value.end;
    var kind := KindOf(s.authoritative, jump);
    q := Phase(p.done + [run], p.steps + if kind.StepGap? then 1 else 0, Some(Gap(span.start, jump, kind)), p.channels);
    TotalMore(p.done, run);
    assert Jumps(s, span) && !ReturnsFromExcursion(s, span);
    var t := OpenAfterJump(s, span);
    assert t.last == None && t.earlier == None && t.total == Total(q.done);
    assert SettleIfLong(Extend(t, span)) == Extend(t, span);
  }

  /** A record of the step describes the jump and leaves what the jump opened. */
  lemma FarRecord(read: Reader, f: Feeding, p: Phase, run: seq<Stamp>, q: Phase, leaked: seq<Stamp>, step: int, d: nat)
    requires AtRun(read, f, q, leaked) && |leaked| > 0 && OpenedFar(p, run, leaked[0].0, q) && d <= STEP_GAP_NS
    requires SteppedFrom(run[|run| - 1].0, leaked[0].0, step, d) && leaked[|leaked| - 1].0 - leaked[0].0 <= STEP_GAP_NS
    ensures AtRun(read, Call(f, Stepped(step)), Ended(p, run), leaked)
  {
    hide Recorded, Total, HullOf;
    CallTimeline(f, Stepped(step));
    RunEnd(f, q, leaked);
    assert Described(f.Timeline(), step) == Some(0);
    if q.channels {
      RecordedSame(read, f, Call(f, Stepped(step)), q.done, leaked);
    }
  }

  lemma RecordedSame(read: Reader, f: Feeding, g: Feeding, done: seq<seq<Stamp>>, run: seq<Stamp>)
    requires Recorded(read, f, done, run) && g.pushes == f.pushes && g.holding == f.holding
    ensures Recorded(read, g, done, run)
  {
    hide RawHull, HeldHull, HeldOrdered;
    forall segment: nat, channel: nat
      ensures KeyHull(read, g, segment, channel) == HullAt(done, run, segment, channel)
    {
      assert KeyHull(read, f, segment, channel) == HullAt(done, run, segment, channel);
    }
  }

  lemma FarPoint(read: Reader, f: Feeding, p: Phase, run: seq<Stamp>, stamp: Stamp) returns (q: Phase)
    requires AtRun(read, f, p, run) && p.pending == None && |run| > 0 && FarFrom(run[|run| - 1].0, stamp.0)
    requires Total(p.done) + PieceLength(run) <= U64_MAX
    ensures OpenedFar(p, run, stamp.0, q) && AtRun(read, PushPoint(f, stamp), q, [stamp])
  {
    hide OnRun, Recorded, Push;
    CallTimeline(f, Pushed(Point(stamp.0)));
    RunEnd(f, p, run);
    PointHullOf(stamp);
    q := OpenFar(f.Timeline(), p, run, [stamp], Point(stamp.0));
    if p.channels {
      RunEnds(read, f, f, p.done, run);
      assert [] + [stamp] == [stamp];
      PointRecorded(read, f, PushPoint(f, stamp), q.done, [], stamp);
    }
  }

  lemma PointHullOf(stamp: Stamp)
    ensures HullOf([stamp]) == Some(Point(stamp.0))
  {
    assert [stamp][..0] == [];
  }

  /** A chunk opened by the jump to it, as far as the timeline goes. */
  lemma FarChunkState(read: Reader, f: Feeding, p: Phase, run: seq<Stamp>, part: Part, d: nat) returns (q: Phase)
    requires OnRun(f.Timeline(), p, run) && LastEnd(f) == LastOf(run) && p.pending == None && |run| > 0
    requires part.Packed? && TruthfulPart(read, part) && !Straddles(part.chunk) && SteadyRun([] + part.Data(), d)
    requires |part.Data()| > 0 && FarFrom(run[|run| - 1].0, part.Data()[0].0)
    requires Total(p.done) + PieceLength(run) <= U64_MAX
    ensures OpenedFar(p, run, part.Data()[0].0, q)
    ensures var g := PushChunk(f, part.chunk);
            OnRun(g.Timeline(), q, part.Data()) && g.Timeline().segment == |q.done| && LastEnd(g) == LastOf(part.Data())
  {
    hide OnRun, Push, SteadyRun, TruthfulPart, Hold, Run, part.Data, HullOf, RunLength, Straddles, Total, PieceLength,
        FarFrom,
         OpenedFar;
    assert [] + part.Data() == part.Data();
    PackedFacts(read, [], part, d);
    CallTimeline(f, Pushed(Span(part.chunk.startTime, part.chunk.endTime)));
    RunEnd(f, p, run);
    HullOfSteady(part.Data(), d);
    TakenWhole(part.chunk);
    q := OpenFar(f.Timeline(), p, run, part.Data(), Span(part.chunk.startTime, part.chunk.endTime));
  }

  lemma FarChunk(read: Reader, f: Feeding, p: Phase, run: seq<Stamp>, part: Part, d: nat) returns (q: Phase)
    requires AtRun(read, f, p, run) && p.pending == None && |run| > 0
    requires part.Packed? && TruthfulPart(read, part) && !Straddles(part.chunk) && SteadyRun(part.Data(), d)
    requires |part.Data()| > 0 && FarFrom(run[|run| - 1].0, part.Data()[0].0)
    requires Total(p.done) + PieceLength(run) <= U64_MAX
    ensures OpenedFar(p, run, part.Data()[0].0, q) && AtRun(read, PushChunk(f, part.chunk), q, part.Data())
  {
    hide *;
    AtRunParts(read, f, p, run);
    assert [] + part.Data() == part.Data();
    q := FarChunkState(read, f, p, run, part, d);
    OpenedFields(p, run, part.Data()[0].0, q);
    var g := PushChunk(f, part.chunk);
    if p.channels {
      PackedFacts(read, [], part, d);
      PushedSegment(f, part.chunk);
      PackedFollows([], part.messages, d);
      FarChunkRecorded(read, f, g, p.done, run, part.chunk, part.messages);
    }
    PartsAreAtRun(read, g, q, part.Data());
  }

  lemma OpenedFields(p: Phase, run: seq<Stamp>, t: int, q: Phase)
    requires OpenedFar(p, run, t, q)
    ensures |run| > 0 && q.done == p.done + [run] && q.channels == p.channels
  {
  }

  lemma AtRunParts(read: Reader, f: Feeding, p: Phase, run: seq<Stamp>)
    requires AtRun(read, f, p, run)
    ensures OnRun(f.Timeline(), p, run) && LastEnd(f) == LastOf(run) && (p.channels ==> Recorded(read, f, p.done, run))
  {
    hide OnRun, Recorded, LastEnd;
  }

  lemma PartsAreAtRun(read: Reader, f: Feeding, p: Phase, run: seq<Stamp>)
    requires OnRun(f.Timeline(), p, run) && LastEnd(f) == LastOf(run) && (p.channels ==> Recorded(read, f, p.done, run))
    ensures AtRun(read, f, p, run)
  {
    hide OnRun, Recorded, LastEnd;
  }

  lemma TakenWhole(chunk: ChunkIndex)
    requires !Straddles(chunk)
    ensures Span(chunk.startTime, chunk.endTime).Len() <= STEP_GAP_NS
  {
  }

  lemma FarChunkRecorded(read: Reader, f: Feeding, g: Feeding, done: seq<seq<Stamp>>, run: seq<Stamp>,
                         chunk: ChunkIndex,
                         messages: seq<Placing>)
    requires Recorded(read, f, done, run) && TruthfulIndexes(read, chunk, messages) && |messages| > 0
    requires g.pushes == f.pushes && g.holding == Hold(f.holding, |done| + 1, chunk, chunk.indexOffsets.Keys)
    requires forall i :: 0 <= i < |messages| ==> EndOf([]) <= messages[i].1 <= messages[|messages| - 1].1
    ensures Recorded(read, g, done + [run], Stamps(messages))
  {
    hide Recorded, TruthfulIndexes, Hold, EndOf;
    RunEnds(read, f, f, done, run);
    assert [] + Stamps(messages) == Stamps(messages);
    ChunkRecorded(read, f, g, done + [run], [], chunk, messages);
  }

  /** What is known of a leak far from its run. */
  predicate FarFits(run: seq<Stamp>, leaked: seq<Stamp>, d: nat) {
    && |run| > 0 && |leaked| > 0 && SteadyRun(run, d) && SteadyRun(leaked, d) && d <= STEP_GAP_NS
    && FarFrom(run[|run| - 1].0, leaked[0].0) && RunLength(leaked) <= STEP_GAP_NS
  }

  /** Messages across a far leak, one by one. */
  lemma PointsAcross(read: Reader, f: Feeding, p: Phase, begun: seq<Stamp>, own: seq<Stamp>, leaked: seq<Stamp>,
                     more: seq<Stamp>, d: nat)
    returns (q: Phase)
    requires AtRun(read, f, p, begun) && p.pending == None && FarFits(begun + own, leaked + more, d) && |leaked| > 0
    requires Total(p.done) + PieceLength(begun + own) <= U64_MAX
    ensures OpenedFar(p, begun + own, leaked[0].0, q) && AtRun(read, PushPoints(f, own + leaked), q, leaked)
  {
    hide AtRun, SteadyRun, PushPoints, RunLength, FarFrom, Total, PieceLength, PushPoint;
    PushMany(read, f, p, begun, own, d);
    var g := PushPoints(f, own);
    q := FarPoint(read, g, p, begun + own, leaked[0]);
    var rest := leaked[1..];
    assert [leaked[0]] + rest == leaked;
    assert (leaked + more)[..|leaked|] == leaked;
    SteadyPrefix(leaked + more, d, |leaked|);
    ShortPrefix(q, leaked + more, d, |leaked|);
    PushMany(read, PushPoint(g, leaked[0]), q, [leaked[0]], rest, d);
    PushPointsConcat(f, own, leaked);
    PushPointsConcat(g, [leaked[0]], rest);
    OnlyPoint(g, leaked[0]);
  }

  lemma OnlyPoint(f: Feeding, stamp: Stamp)
    ensures PushPoints(f, [stamp]) == PushPoint(f, stamp)
  {
    hide PushPoint;
    assert [stamp][..0] == [];
    assert PushPoints(f, []) == f;
  }

  // ---------------------------------------------------------------- feeding entries

  /** What feeding a part that no record follows does. */
  function FeedPart(f: Feeding, part: Part): Feeding {
    match part
    case Read(times) => PushPoints(f, times)
    case Packed(chunk, messages) =>
      if Straddles(chunk) then PushPoints(f, Stamps(messages)) else PushChunk(f, chunk)
    case Bare(_) => f
  }

  function FeedParts(f: Feeding, parts: seq<Part>): Feeding
    decreases |parts|
  {
    if |parts| == 0 then f else FeedParts(FeedPart(f, parts[0]), parts[1..])
  }

  lemma FeedOnePart(read: Reader, f: Feeding, part: Part, after: seq<Entry>)
    requires TruthfulPart(read, part) && (|after| == 0 || !after[0].StepEntry? || part.Bare?)
    ensures var entries := [part.AsEntry()] + after;
            FeedEntry(IndexesOf(read), f, entries) == FeedPart(f, part) && !TakesNext(entries)
  {
    hide PushPoints, PushChunk, FirstLogTime, MessageTimes, ExtentIn, TruthfulIndexes;
    var entries := [part.AsEntry()] + after;
    assert |after| > 0 ==> entries[1] == after[0];
    if part.Packed? {
      PackedHasIndex(read, part);
    }
  }

  lemma {:induction false} FeedBody(read: Reader, f: Feeding, parts: seq<Part>, tail: seq<Entry>)
    requires TruthfulParts(read, parts) && (|tail| == 0 || !tail[0].StepEntry?)
    ensures FeedAll(IndexesOf(read), f, PartEntries(parts) + tail)
            == FeedAll(IndexesOf(read), FeedParts(f, parts), tail)
    decreases |parts|
  {
    hide FeedEntry, FeedPart, TruthfulPart, IndexesOf;
    if |parts| == 0 {
      assert PartEntries(parts) + tail == tail;
    } else {
      var rest := PartEntries(parts[1..]) + tail;
      var entries := PartEntries(parts) + tail;
      assert entries == [parts[0].AsEntry()] + rest;
      assert entries[1..] == rest;
      assert |rest| > 0 ==> !rest[0].StepEntry?;
      FeedOnePart(read, f, parts[0], rest);
      FeedBody(read, FeedPart(f, parts[0]), parts[1..], tail);
    }
  }

  lemma PartAtRun(read: Reader, f: Feeding, p: Phase, run: seq<Stamp>, part: Part, d: nat)
    requires TruthfulPart(read, part)
    requires AtRun(read, f, p, run) && SteadyRun(run + part.Data(), d) && d <= STEP_GAP_NS
             && KeepsOpen(p, run + part.Data())
    ensures AtRun(read, FeedPart(f, part), p, run + part.Data())
  {
    hide AtRun, SteadyRun, PushPoints, PushChunk, TruthfulPart, KeepsOpen;
    match part
    case Read(times) => PushMany(read, f, p, run, times, d);
    case Packed(chunk, messages) =>
      PushMany(read, f, p, run, Stamps(messages), d);
      PushPacked(read, f, p, run, part, d);
    case Bare(_) => assert run + [] == run;
  }

  lemma {:induction false} PartsAtRun(read: Reader, f: Feeding, p: Phase, run: seq<Stamp>, parts: seq<Part>, d: nat)
    requires TruthfulParts(read, parts)
    requires AtRun(read, f, p, run) && SteadyRun(run + Flatten(parts), d) && d <= STEP_GAP_NS
             && KeepsOpen(p, run + Flatten(parts))
    ensures AtRun(read, FeedParts(f, parts), p, run + Flatten(parts))
    decreases |parts|
  {
    hide AtRun, SteadyRun, FeedPart, TruthfulPart, KeepsOpen;
    if |parts| == 0 {
      assert run + Flatten(parts) == run;
    } else {
      var longer := run + parts[0].Data();
      assert run + Flatten(parts) == longer + Flatten(parts[1..]);
      assert (run + Flatten(parts))[..|longer|] == longer;
      SteadyPrefix(run + Flatten(parts), d, |longer|);
      ShortPrefix(p, run + Flatten(parts), d, |longer|);
      PartAtRun(read, f, p, run, parts[0], d);
      PartsAtRun(read, FeedPart(f, parts[0]), p, longer, parts[1..], d);
    }
  }

  /** A chunk with messages on both sides of a far leak is looked up. */
  lemma FarStraddles(read: Reader, begun: seq<Stamp>, part: Part, own: seq<Stamp>, leaked: seq<Stamp>)
    requires part.Packed? && TruthfulPart(read, part) && part.Data() == own + leaked && |own| > 0 && |leaked| > 0
    requires FarFrom(own[|own| - 1].0, leaked[0].0)
    ensures Straddles(part.chunk)
  {
    hide TruthfulIndexes;
    assert part.Data()[|own| - 1] == own[|own| - 1] && part.Data()[|own|] == leaked[0];
  }

  /** The entry in which a far leak begins. */
  lemma PartAcross(read: Reader, f: Feeding, p: Phase, begun: seq<Stamp>, part: Part, own: seq<Stamp>,
                   leaked: seq<Stamp>,
                   more: seq<Stamp>, d: nat) returns (q: Phase)
    requires TruthfulPart(read, part) && part.Data() == own + leaked && |leaked| > 0
    requires AtRun(read, f, p, begun) && p.pending == None && FarFits(begun + own, leaked + more, d)
    requires Total(p.done) + PieceLength(begun + own) <= U64_MAX
    ensures OpenedFar(p, begun + own, leaked[0].0, q) && AtRun(read, FeedPart(f, part), q, leaked)
  {
    hide AtRun, SteadyRun, RunLength, Total, PieceLength, TruthfulPart, PushPoints, PushChunk, OpenedFar, Straddles,
        FarFrom;
    if part.Packed? && !Straddles(part.chunk) {
      if |own| > 0 {
        assert (begun + own)[|begun + own| - 1] == own[|own| - 1];
        FarStraddles(read, begun, part, own, leaked);
        assert false;
      } else {
        assert own == [] && begun + own == begun && part.Data() == leaked;
        assert (leaked + more)[..|leaked|] == leaked;
        SteadyPrefix(leaked + more, d, |leaked|);
        q := FarChunk(read, f, p, begun, part, d);
      }
    } else {
      q := PointsAcross(read, f, p, begun, own, leaked, more, d);
    }
  }

  /** Entries in which a far leak begins. */
  lemma {:induction false} PartsAcross(read: Reader, f: Feeding, p: Phase, begun: seq<Stamp>, parts: seq<Part>,
                                       own: seq<Stamp>,
                                       leaked: seq<Stamp>, more: seq<Stamp>, d: nat) returns (q: Phase)
    requires TruthfulParts(read, parts) && Flatten(parts) == own + leaked && |leaked| > 0
    requires AtRun(read, f, p, begun) && p.pending == None && FarFits(begun + own, leaked + more, d)
    requires Total(p.done) + PieceLength(begun + own) <= U64_MAX
    ensures OpenedFar(p, begun + own, leaked[0].0, q) && AtRun(read, FeedParts(f, parts), q, leaked)
    decreases |parts|
  {
    hide AtRun, SteadyRun, RunLength, Total, PieceLength, TruthfulPart, OpenedFar, FeedPart, FarFrom;
    var data := parts[0].Data();
    assert Flatten(parts) == data + Flatten(parts[1..]);
    if |data| <= |own| {
      Overlap(data, Flatten(parts[1..]), own, leaked);
      Regroup(begun, data, own[|data|..]);
      assert (begun + own)[..|begun + data|] == begun + data;
      SteadyPrefix(begun + own, d, |begun + data|);
      PartAtRun(read, f, p, begun, parts[0], d);
      q := PartsAcross(read, FeedPart(f, parts[0]), p, begun + data, parts[1..], own[|data|..], leaked, more, d);
    } else {
      Overlap(own, leaked, data, Flatten(parts[1..]));
      var head := data[|own|..];
      assert leaked == head + Flatten(parts[1..]);
      Regroup(head, Flatten(parts[1..]), more);
      q := PartAcross(read, f, p, begun, parts[0], own, head, Flatten(parts[1..]) + more, d);
      assert (leaked + more)[..|leaked|] == leaked;
      SteadyPrefix(leaked + more, d, |leaked|);
      ShortPrefix(q, leaked + more, d, |leaked|);
      PartsAtRun(read, FeedPart(f, parts[0]), q, head, parts[1..], d);
    }
  }

  /** Of two ways to cut a sequence in two the shorter head is the start of the longer. */
  lemma Overlap<T>(a: seq<T>, b: seq<T>, x: seq<T>, y: seq<T>)
    requires a + b == x + y && |a| <= |x|
    ensures x == a + x[|a|..] && b == x[|a|..] + y
  {
    assert (a + b)[..|a|] == a && (x + y)[..|a|] == x[..|a|];
    assert (a + b)[|a|..] == b && (x + y)[|a|..] == x[|a|..] + y;
  }

  // ---------------------------------------------------------------- leaks close to their run

  /** What is known of a run and a leak that no jump sets apart from it. */
  predicate MixFits(run: seq<Stamp>, leaked: seq<Stamp>, d: nat) {
    && SteadyRun(run, d) && SteadyRun(leaked, d) && d <= STEP_GAP_NS && RunLength(leaked) <= STEP_GAP_NS
    && (|run| > 0 && |leaked| > 0 ==> !FarFrom(run[|run| - 1].0, leaked[0].0))
  }

  /** Where the data ends once the first `i` messages of a run and its leak are pushed:
      with the last, or with the run's if that is later and a chunk holds both. */
  predicate EndFits(run: seq<Stamp>, leaked: seq<Stamp>, i: nat, end: Option<int>)
    requires i <= |run + leaked|
  {
    if i == 0 then end == None
    else
      || end == Some((run + leaked)[i - 1].0)
      || (0 < |run| < i && end == Some(run[|run| - 1].0) && leaked[0].0 <= (run + leaked)[i - 1].0 <= run[|run| - 1].0)
  }

  /** The hull of some messages in a row of a steady run. */
  lemma HullWithin(run: seq<Stamp>, i: nat, j: nat, d: nat)
    requires SteadyRun(run, d) && i < j <= |run|
    ensures HullOf(run[i..j]) == Some(Span(run[i].0, run[j - 1].0)) && run[i].0 <= run[j - 1].0
    ensures i > 0 ==> 0 <= run[i].0 - run[i - 1].0 <= d
  {
    hide SteadyRun, HullOf;
    assert run[i..j] == run[..j][i..];
    SteadyPrefix(run, d, j);
    SteadySuffix(run[..j], d, i);
    HullOfSteady(run[i..j], d);
    RunOrder(run, d, i, j - 1);
    if i > 0 {
      Follow(run, d, i);
    }
  }

  /** The hull of messages `i` to `j` of a run and its leak, which may go on from where
      the data ends. */
  lemma MixHull(run: seq<Stamp>, leaked: seq<Stamp>, i: nat, j: nat, end: Option<int>, d: nat) returns (span: Span)
    requires MixFits(run, leaked, d) && i < j <= |run + leaked| && EndFits(run, leaked, i, end)
    ensures HullOf((run + leaked)[i..j]) == Some(span)
    ensures end.Some? ==> Abs(span.start - end.value) <= STEP_GAP_NS
    ensures EndFits(run, leaked, j, Some(span.end))
  {
    hide SteadyRun, HullOf;
    var n := |run|;
    if j <= n {
      assert (run + leaked)[i..j] == run[i..j];
      HullWithin(run, i, j, d);
      span := Span(run[i].0, run[j - 1].0);
    } else if i >= n {
      span := LeakHull(run, leaked, i, j, end, d);
    } else {
      span := BothHull(run, leaked, i, j, end, d);
    }
  }

  lemma LeakHull(run: seq<Stamp>, leaked: seq<Stamp>, i: nat, j: nat, end: Option<int>, d: nat) returns (span: Span)
    requires MixFits(run, leaked, d) && |run| <= i < j <= |run + leaked| && EndFits(run, leaked, i, end)
    ensures HullOf((run + leaked)[i..j]) == Some(span)
    ensures end.Some? ==> Abs(span.start - end.value) <= STEP_GAP_NS
    ensures EndFits(run, leaked, j, Some(span.end))
  {
    hide SteadyRun, HullOf;
    var a, b := i - |run|, j - |run|;
    assert (run + leaked)[i..j] == leaked[a..b];
    HullWithin(leaked, a, b, d);
    LeakOrder(leaked, a, b - 1, d);
    if a > 0 {
      LeakOrder(leaked, a - 1, a, d);
    }
    span := Span(leaked[a].0, leaked[b - 1].0);
  }

  lemma BothHull(run: seq<Stamp>, leaked: seq<Stamp>, i: nat, j: nat, end: Option<int>, d: nat) returns (span: Span)
    requires MixFits(run, leaked, d) && i < |run| < j <= |run + leaked| && EndFits(run, leaked, i, end)
    ensures HullOf((run + leaked)[i..j]) == Some(span)
    ensures end.Some? ==> Abs(span.start - end.value) <= STEP_GAP_NS
    ensures EndFits(run, leaked, j, Some(span.end))
  {
    hide SteadyRun, HullOf;
    var n, b := |run|, j - |run|;
    assert (run + leaked)[i..j] == run[i..n] + leaked[0..b];
    HullConcat(run[i..n], leaked[0..b]);
    HullWithin(run, i, n, d);
    HullWithin(leaked, 0, b, d);
    LeakOrder(leaked, 0, b - 1, d);
    span := Span(run[i].0, run[n - 1].0).Merge(Span(leaked[0].0, leaked[b - 1].0));
  }

  lemma LeakOrder(leaked: seq<Stamp>, i: nat, j: nat, d: nat)
    requires SteadyRun(leaked, d) && i <= j < |leaked|
    ensures leaked[0].0 <= leaked[i].0 <= leaked[j].0 <= leaked[|leaked| - 1].0
  {
    hide SteadyRun;
    RunOrder(leaked, d, 0, i);
    RunOrder(leaked, d, i, j);
    RunOrder(leaked, d, j, |leaked| - 1);
  }

  /** The first `i` messages of a run and its leak have been pushed. */
  predicate InMix(f: Feeding, p: Phase, run: seq<Stamp>, leaked: seq<Stamp>, i: nat) {
    i <= |run + leaked| && OnRun(f.Timeline(), p, (run + leaked)[..i]) && EndFits(run, leaked, i, LastEnd(f))
  }

  lemma MixPush(f: Feeding, p: Phase, run: seq<Stamp>, leaked: seq<Stamp>, i: nat, j: nat, span: Span, d: nat)
    requires InMix(f, p, run, leaked, i) && MixFits(run, leaked, d) && i < j <= |run + leaked| && p.pending == None
    requires HullOf((run + leaked)[i..j]) == Some(span)
    ensures var g := Call(f, Pushed(span));
            OnRun(g.Timeline(), p, (run + leaked)[..j]) && EndFits(run, leaked, j, LastEnd(g))
  {
    hide OnRun, Push, HullOf, MixFits, EndFits, Run;
    var x := run + leaked;
    var same := MixHull(run, leaked, i, j, LastEnd(f), d);
    assert x[..i] + x[i..j] == x[..j];
    CallTimeline(f, Pushed(span));
    PushOn(f.Timeline(), p, x[..i], x[i..j], span);
  }

  lemma {:induction false} MixPoints(f: Feeding, p: Phase, run: seq<Stamp>, leaked: seq<Stamp>, i: nat,
                                     times: seq<Stamp>, d: nat)
    requires InMix(f, p, run, leaked, i) && MixFits(run, leaked, d) && p.pending == None
    requires i + |times| <= |run + leaked| && (run + leaked)[i..i + |times|] == times
    ensures InMix(PushPoints(f, times), p, run, leaked, i + |times|)
  {
    hide OnRun, MixFits, EndFits, PushPoint;
    if |times| > 0 {
      var x, n := run + leaked, |times| - 1;
      assert x[i..i + n] == times[..n];
      MixPoints(f, p, run, leaked, i, times[..n], d);
      assert x[i + n..i + n + 1] == [times[n]];
      PointHullOf(times[n]);
      MixPush(PushPoints(f, times[..n]), p, run, leaked, i + n, i + n + 1, Point(times[n].0), d);
      PointFields(PushPoints(f, times[..n]), times[n]);
    }
  }

  lemma PointFields(f: Feeding, stamp: Stamp)
    ensures var g := Call(f, Pushed(Point(stamp.0)));
            PushPoint(f, stamp).Timeline() == g.Timeline() && LastEnd(PushPoint(f, stamp)) == LastEnd(g)
  {
  }

  lemma MixChunk(read: Reader, f: Feeding, p: Phase, run: seq<Stamp>, leaked: seq<Stamp>, i: nat, part: Part, d: nat)
    requires InMix(f, p, run, leaked, i) && MixFits(run, leaked, d) && p.pending == None
    requires part.Packed? && TruthfulPart(read, part)
    requires i + |part.Data()| <= |run + leaked| && (run + leaked)[i..i + |part.Data()|] == part.Data()
    ensures InMix(PushChunk(f, part.chunk), p, run, leaked, i + |part.Data()|)
  {
    hide OnRun, MixFits, EndFits, TruthfulIndexes, HeaderIs, HullOf, Hold, Run, LastEnd, PushChunk;
    HeaderIsHull(part.chunk, part.messages);
    var span := Span(part.chunk.startTime, part.chunk.endTime);
    MixPush(f, p, run, leaked, i, i + |part.messages|, span, d);
    PushedSegment(f, part.chunk);
    ChunkEnd(f, part.chunk);
  }

  lemma ChunkEnd(f: Feeding, chunk: ChunkIndex)
    ensures LastEnd(PushChunk(f, chunk)) == LastEnd(Call(f, Pushed(Span(chunk.startTime, chunk.endTime))))
  {
    hide Hold;
  }

  lemma MixPart(read: Reader, f: Feeding, p: Phase, run: seq<Stamp>, leaked: seq<Stamp>, i: nat, part: Part, d: nat)
    requires InMix(f, p, run, leaked, i) && MixFits(run, leaked, d) && p.pending == None && TruthfulPart(read, part)
    requires i + |part.Data()| <= |run + leaked| && (run + leaked)[i..i + |part.Data()|] == part.Data()
    ensures InMix(FeedPart(f, part), p, run, leaked, i + |part.Data()|)
  {
    hide InMix, MixFits, TruthfulPart, Straddles, PushPoints, PushChunk;
    match part
    case Read(times) => MixPoints(f, p, run, leaked, i, times, d);
    case Packed(chunk, messages) =>
      if Straddles(chunk) {
        MixPoints(f, p, run, leaked, i, Stamps(messages), d);
      } else {
        MixChunk(read, f, p, run, leaked, i, part, d);
      }
    case Bare(_) =>
  }

  lemma SliceSplit<T>(x: seq<T>, i: nat, a: seq<T>, b: seq<T>)
    requires i + |a + b| <= |x| && x[i..i + |a + b|] == a + b
    ensures x[i..i + |a|] == a && x[i + |a|..i + |a| + |b|] == b
  {
    var both := x[i..i + |a + b|];
    assert x[i..i + |a|] == both[..|a|];
    assert x[i + |a|..i + |a| + |b|] == both[|a|..];
  }

  lemma {:induction false} MixParts(read: Reader, f: Feeding, p: Phase, run: seq<Stamp>, leaked: seq<Stamp>, i: nat,
                                    parts: seq<Part>, d: nat)
    requires InMix(f, p, run, leaked, i) && MixFits(run, leaked, d) && p.pending == None && TruthfulParts(read, parts)
    requires i + |Flatten(parts)| <= |run + leaked| && (run + leaked)[i..i + |Flatten(parts)|] == Flatten(parts)
    ensures InMix(FeedParts(f, parts), p, run, leaked, i + |Flatten(parts)|)
    decreases |parts|
  {
    hide InMix, MixFits, TruthfulPart, FeedPart;
    if |parts| > 0 {
      var data, rest := parts[0].Data(), Flatten(parts[1..]);
      assert Flatten(parts) == data + rest;
      SliceSplit(run + leaked, i, data, rest);
      MixPart(read, f, p, run, leaked, i, parts[0], d);
      MixParts(read, FeedPart(f, parts[0]), p, run, leaked, i + |data|, parts[1..], d);
    }
  }
}
