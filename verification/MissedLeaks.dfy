/** Recordings in which messages leaked ahead of a record go unnoticed. */
module MissedLeaks {
  import opened Spans
  import opened Timeline
  import opened Conservation
  import opened Leak
  import opened Feed
  import opened MessageIndexes
  import opened Sections
  import opened Phases
  import opened StepInvariance

  const SECOND := 1_000_000_000

  const LATE: seq<Stamp> := [(100 * SECOND, 0), (96 * SECOND, 0)]
  const AFTER: seq<Stamp> := [(96 * SECOND, 0)]
  const EARLY: seq<Stamp> := [(96 * SECOND, 0), (93 * SECOND, 0)]
  const LAST: seq<Stamp> := [(93 * SECOND, 0)]

  function Measured(read: Reader, authoritative: bool, sections: seq<Section>, rest: seq<Part>): Report {
    Finish(FeedAll(IndexesOf(read), Feed.Start(authoritative), FileEntries(sections, rest)).Timeline())
  }

  /** The file is as assumed but for a leak that cannot be told apart, and its runs last
      `runs` together, yet it is reported to last `report`. */
  ghost predicate ReportedAs(read: Reader, sections: seq<Section>, rest: seq<Part>, d: nat, runs: nat, report: nat) {
    && AllValid(sections) && Interrupted([], sections, rest, d) && TruthfulFile(read, sections, rest)
        && d <= STEP_GAP_NS
    && !AllToldApart([], sections, rest)
    && Sum(RunLengths(RunsFrom([], sections, rest))) == runs
    && forall authoritative :: Measured(read, authoritative, sections, rest) == Report(report, |sections|)
  }

  lemma SumTwo(s: seq<nat>)
    requires |s| == 2
    ensures Sum(s) == s[0] + s[1]
  {
    assert Sum(s) == Sum(s[..1]) + s[1];
    assert Sum(s[..1]) == Sum(s[..1][..0]) + s[0];
  }

  /** A file with one record whose leak is measured with its run. */
  lemma OneRecord(read: Reader, s: Section, rest: seq<Part>, d: nat, runs: nat, report: nat)
    requires s.Valid() && TruthfulParts(read, s.parts) && TruthfulParts(read, rest) && SectionFits([], s, d)
             && d <= STEP_GAP_NS
    requires SteadyRun(s.Leaked() + Flatten(rest), d)
    requires !ToldApart([], s, FirstLogTime(PartEntries(rest)))
    requires PlaceOf(None, s, FirstLogTime(PartEntries(rest))) == |Flatten(s.parts)|
    requires RunLength([] + s.Own()) + RunLength(s.Leaked() + Flatten(rest)) == runs
    requires PieceLength(Flatten(s.parts)) + PieceLength(Flatten(rest)) == report <= U64_MAX
    ensures ReportedAs(read, [s], rest, d, runs, report)
  {
    hide SectionFits, SteadyRun, RunLength, PieceLength, PlaceOf, Flatten, TruthfulPart, LeakSeen, FarLeak, FeedAll,
        FirstLogTime;
    var none: seq<Section> := [];
    assert [s][1..] == none;
    NoSections(Feed.Start(true), s.Leaked(), none, rest);
    var data := Flatten(s.parts);
    assert PartedAt([], s, FirstLogTime(PartEntries(rest))) == |data|;
    assert [] + data[..|data|] == data && data[|data|..] + Flatten(rest) == Flatten(rest);
    var pieces, runsOf := PiecesFrom([], [s], rest), RunsFrom([], [s], rest);
    FirstPiece([], [s], rest);
    FirstRun([], [s], rest);
    assert pieces[1..] == PiecesFrom(data[|data|..], none, rest) == [data[|data|..] + Flatten(rest)];
    assert runsOf[1..] == RunsFrom(s.Leaked(), none, rest) == [s.Leaked() + Flatten(rest)];
    assert pieces == [data] + pieces[1..] && runsOf == [[] + s.Own()] + runsOf[1..];
    assert pieces == [data, Flatten(rest)];
    assert runsOf == [[] + s.Own(), s.Leaked() + Flatten(rest)];
    SumTwo(Each(PieceLength, pieces));
    SumTwo(Each(RunLength, runsOf));
    assert Interrupted([], [s], rest, d);
    forall authoritative
      ensures Measured(read, authoritative, [s], rest) == Report(report, 1)
    {
      WhatIsReported(read, authoritative, [s], rest, d);
    }
  }

  // ---------------------------------------------------------------- a leak set apart by other entries

  const BARE := ChunkIndex(0, 0, 0, map[])

  /** Messages leaked ahead of a record, but for a chunk of other records in between. */
  const BEFORE_BARE := Section([Read(LATE), Bare(BARE)], 1, ClockStep(1, -4 * SECOND))

  /** Messages leaked in two entries ahead of a record. */
  const OVER_TWO := Section([Read(LATE), Read(AFTER)], 1, ClockStep(0, -4 * SECOND))

  /** A first run that comes by the log time at which its leak begins. */
  const RISING: seq<Stamp> := [(96 * SECOND, 0), (98 * SECOND, 0), (100 * SECOND, 0), (96 * SECOND, 0)]
  const PASSED_BY := Section([Read(RISING), Bare(BARE)], 3, ClockStep(1, -4_500_000_000))

  lemma TwoParts(a: Part, b: Part)
    ensures Flatten([a, b]) == a.Data() + b.Data() && Flatten([a]) == a.Data() && Flatten([b]) == b.Data()
    ensures [a, b][..1] == [a]
  {
    assert [a] + [b] == [a, b];
    FlattenConcat([a], [b]);
    FlattenOne(a);
    FlattenOne(b);
  }

  lemma HullOfTwo(a: seq<Stamp>, b: Stamp)
    ensures HullOf(a + [b]) == MergeOption(HullOf(a), Some(Point(b.0)))
  {
    assert (a + [b])[..|a|] == a;
  }

  lemma Hulls()
    ensures PieceLength(LATE) == PieceLength(LATE + AFTER) == PieceLength(RISING) == 4 * SECOND
    ensures PieceLength(AFTER) == PieceLength(EARLY[..1]) == PieceLength(LAST + LAST) == 0
  {
    hide HullOf;
    EmptyHull([]);
    forall b: Stamp
      ensures HullOf([b]) == Some(Point(b.0))
    {
      PointHullOf(b);
    }
    assert EARLY[..1] == [EARLY[0]];
    HullOfTwo([LATE[0]], LATE[1]);
    HullOfTwo(LATE, AFTER[0]);
    HullOfTwo(LAST, LAST[0]);
    HullOfTwo([RISING[0]], RISING[1]);
    HullOfTwo(RISING[..2], RISING[2]);
    HullOfTwo(RISING[..3], RISING[3]);
    assert RISING[..2] == [RISING[0]] + [RISING[1]] && RISING[..3] == RISING[..2] + [RISING[2]];
    assert RISING == RISING[..3] + [RISING[3]] && LATE == [LATE[0]] + [LATE[1]];
  }

  /** The leak begins ahead of the entry just before the record. */
  lemma FurtherBack(read: Reader, s: Section, first: seq<Stamp>, b: Part, resumes: Option<nat>, d: nat)
    requires s == Section([Read(first), b], s.split, s.step) && s.split < |first| && !b.Packed?
    requires s.Valid() && TruthfulPart(read, b) && SectionFits([], s, d) && !FarLeak([], s)
    ensures !ToldApart([], s, resumes) && PlaceOf(None, s, resumes) == |Flatten(s.parts)|
    ensures TruthfulParts(read, s.parts) && Flatten(s.parts) == first + b.Data()
  {
    hide SteadyRun, Vetoed, SplitIndex, FarLeak, SectionFits;
    TwoParts(Read(first), b);
    assert s.Body() == [Read(first)];
    assert [Read(first)][1..] == [];
    UnseenIsAhead(read, [], s, resumes, d);
  }

  /** A chunk of other records between the leak and the record hides the leak. */
  lemma BareChunkHidesLeak(read: Reader)
    ensures ReportedAs(read, [BEFORE_BARE], [Read(AFTER)], 0, 0, 4 * SECOND)
  {
    hide HullOf, PieceLength, ReportedAs, ToldApart, PlaceOf, FirstLogTime, LeakSeen;
    TwoParts(Read(LATE), Bare(BARE));
    FlattenOne(Read(AFTER));
    Hulls();
    FurtherBack(read, BEFORE_BARE, LATE, Bare(BARE), FirstLogTime(PartEntries([Read(AFTER)])), 0);
    assert LATE + [] == LATE;
    OneRecord(read, BEFORE_BARE, [Read(AFTER)], 0, 0, 4 * SECOND);
  }

  /** Of a leak over two entries only the second is looked at. */
  lemma LeakOverTwoEntries(read: Reader)
    ensures ReportedAs(read, [OVER_TWO], [Read(AFTER)], 0, 0, 4 * SECOND)
  {
    hide HullOf, PieceLength, ReportedAs, ToldApart, PlaceOf, FirstLogTime, LeakSeen;
    TwoParts(Read(LATE), Read(AFTER));
    FlattenOne(Read(AFTER));
    Hulls();
    FurtherBack(read, OVER_TWO, LATE, Read(AFTER), FirstLogTime(PartEntries([Read(AFTER)])), 0);
    OneRecord(read, OVER_TWO, [Read(AFTER)], 0, 0, 4 * SECOND);
  }

  /** A leak that is not told apart can still do no harm: here it lies within what its run
      spans anyway, and the next run spans nothing with or without it. */
  lemma CoincidesAnyway(read: Reader)
    ensures ReportedAs(read, [PASSED_BY], [Read(AFTER)], 2 * SECOND, 4 * SECOND, 4 * SECOND)
  {
    hide HullOf, PieceLength, ReportedAs, ToldApart, PlaceOf, FirstLogTime, LeakSeen;
    TwoParts(Read(RISING), Bare(BARE));
    FlattenOne(Read(AFTER));
    Hulls();
    FurtherBack(read, PASSED_BY, RISING, Bare(BARE), FirstLogTime(PartEntries([Read(AFTER)])), 2 * SECOND);
    assert RISING + [] == RISING;
    OneRecord(read, PASSED_BY, [Read(AFTER)], 2 * SECOND, 4 * SECOND, 4 * SECOND);
  }

  // ---------------------------------------------------------------- a leak that the next one hides

  const CHUNK := ChunkIndex(1, 93 * SECOND, 96 * SECOND, map[0 := 2])
  const MESSAGES: seq<Placing> := [(0, 96 * SECOND, 0), (1, 93 * SECOND, 0)]

  /** The file's one message index, the chunk's. */
  const INDEX: Reader := (offset: nat) =>
    if offset == 2 then Some(IndexRecord(0, [(0, 96 * SECOND), (1, 93 * SECOND)])) else None

  const FIRST := Section([Read(LATE)], 1, ClockStep(0, -4 * SECOND))
  const NEXT := Section([Packed(CHUNK, MESSAGES)], 1, ClockStep(3, -3 * SECOND))

  lemma OfMessages(c: nat)
    ensures Of(MESSAGES, c) == if c == 0 then MESSAGES else []
  {
    var first := MESSAGES[..1];
    assert Of(MESSAGES, c) == (if c == 0 then Of(first, c) + [MESSAGES[1]] else Of(first, c));
    assert Of(first, c) == (if c == 0 then Of(first[..0], c) + [first[0]] else Of(first[..0], c));
    assert MESSAGES == [MESSAGES[0]] + [MESSAGES[1]];
  }

  lemma ChunkIsTruthful()
    ensures TruthfulPart(INDEX, NEXT.parts[0])
  {
    hide Of;
    forall c: nat
      ensures Of(MESSAGES, c) == if c == 0 then MESSAGES else []
    {
      OfMessages(c);
    }
    var index := INDEX(2).value;
    assert PlacingsOf(index) == MESSAGES;
    assert MESSAGES[1].1 == CHUNK.startTime && MESSAGES[0].1 == CHUNK.endTime;
  }

  lemma SectionShapes()
    ensures FIRST.Valid() && Flatten(FIRST.parts) == LATE && FIRST.Own() == LATE[..1] && FIRST.Leaked() == AFTER
    ensures FIRST.Body() == [] && FIRST.LastData() == LATE
    ensures NEXT.Valid() && Flatten(NEXT.parts) == EARLY && NEXT.Own() == EARLY[..1] && NEXT.Leaked() == LAST
    ensures NEXT.Body() == [] && NEXT.LastData() == EARLY
  {
    FlattenOne(FIRST.parts[0]);
    FlattenOne(NEXT.parts[0]);
    assert Stamps(MESSAGES) == EARLY;
  }

  lemma HeardOfNext(rest: seq<Part>)
    requires rest == [Read(LAST)]
    ensures FirstLogTime(FileEntries([NEXT], rest)) == Some(93 * SECOND)
    ensures FirstLogTime(PartEntries(rest)) == Some(93 * SECOND)
  {
    FirstEntries([NEXT], rest);
    FlattenOne(NEXT.parts[0]);
    FlattenOne(rest[0]);
    assert FileEntries([NEXT], rest)[0] == ChunkEntry(CHUNK);
  }

  /** The first leak cannot be told apart and is measured with its run. */
  lemma FirstIsHidden()
    ensures FIRST.Valid() && SectionFits([], FIRST, 0)
    ensures !ToldApart([], FIRST, Some(93 * SECOND)) && PartedAt([], FIRST, Some(93 * SECOND)) == 2
  {
    SectionShapes();
    VetoedPlace(LATE, -4 * SECOND, None, Some(93 * SECOND));
  }

  /** The second leak is split off as it should be, with nothing left of the first. */
  lemma NextIsSplit()
    ensures NEXT.Valid() && SectionFits(AFTER, NEXT, 0) && PartedAt([], NEXT, Some(93 * SECOND)) == 1
  {
    hide LeakSplit;
    SectionShapes();
    var points := Points(None, EARLY);
    assert points == [96 * SECOND, 93 * SECOND];
    assert points[..1] == [96 * SECOND] && points[1..] == [93 * SECOND];
    LeakRecovered(EARLY, -3 * SECOND, None, Some(93 * SECOND), 0, 1);
  }

  /** Two backward steps with messages leaked ahead of both records: the chunk between
      them holds the second leak, so its header starts there and speaks against the first. */
  lemma HeaderMisleads()
    ensures ReportedAs(INDEX, [FIRST, NEXT], [Read(LAST)], 0, 0, 4 * SECOND)
  {
    hide SectionFits, PartedAt, PieceLength, RunLength, LeakSeen, FarLeak, FeedAll, TruthfulPart, Flatten, SteadyRun,
        FirstLogTime;
    var both, rest := [FIRST, NEXT], [Read(LAST)];
    ChunkIsTruthful();
    HeardOfNext(rest);
    FirstIsHidden();
    NextIsSplit();
    ReadIsTruthful(INDEX, LATE);
    ReadIsTruthful(INDEX, LAST);
    TwoPieces(rest);
    TwoRuns(rest);
    Hulls();
    var pieces := PiecesFrom([], both, rest);
    SumThree(Each(PieceLength, pieces));
    forall authoritative
      ensures Measured(INDEX, authoritative, both, rest) == Report(4 * SECOND, 2)
    {
      WhatIsReported(INDEX, authoritative, both, rest, 0);
    }
  }

  lemma ReadIsTruthful(read: Reader, times: seq<Stamp>)
    ensures TruthfulPart(read, Read(times))
  {
  }

  lemma SumThree(s: seq<nat>)
    requires |s| == 3
    ensures Sum(s) == s[0] + s[1] + s[2]
  {
    assert s[..2] == [s[0], s[1]];
    SumTwo(s[..2]);
  }

  predicate NextHeard(rest: seq<Part>) {
    && rest == [Read(LAST)] && FirstLogTime(FileEntries([NEXT], rest)) == Some(93 * SECOND)
    && FirstLogTime(PartEntries(rest)) == Some(93 * SECOND)
  }

  lemma TwoPieces(rest: seq<Part>)
    requires NextHeard(rest) && FIRST.Valid() && PartedAt([], FIRST, Some(93 * SECOND)) == 2
    requires NEXT.Valid() && PartedAt([], NEXT, Some(93 * SECOND)) == 1
    ensures AllValid([FIRST, NEXT]) && PiecesFrom([], [FIRST, NEXT], rest) == [LATE, EARLY[..1], LAST + LAST]
  {
    hide PartedAt, FirstLogTime, Flatten;
    var both, next: seq<Section>, none: seq<Section> := [FIRST, NEXT], [NEXT], [];
    assert both[1..] == next && next[1..] == none;
    SectionShapes();
    FlattenOne(rest[0]);
    NoSections(Feed.Start(true), LAST, none, rest);
    FirstPiece([], both, rest);
    FirstPiece([], next, rest);
    assert LATE[..2] == LATE && LATE[2..] == [] && [] + LATE == LATE;
    assert EARLY[1..] == LAST && [] + EARLY[..1] == EARLY[..1];
    assert PiecesFrom(LAST, none, rest) == [LAST + LAST];
    FirstAndRest(PiecesFrom([], both, rest));
    FirstAndRest(PiecesFrom([], next, rest));
  }

  lemma FirstAndRest<T>(s: seq<T>)
    requires |s| > 0
    ensures s == [s[0]] + s[1..]
  {
  }

  lemma TwoRuns(rest: seq<Part>)
    requires rest == [Read(LAST)] && FIRST.Valid() && SectionFits([], FIRST, 0)
    requires NEXT.Valid() && SectionFits(AFTER, NEXT, 0)
    ensures AllValid([FIRST, NEXT]) && Interrupted([], [FIRST, NEXT], rest, 0)
    ensures Sum(RunLengths(RunsFrom([], [FIRST, NEXT], rest))) == 0
  {
    hide SectionFits, Flatten;
    var both, next: seq<Section>, none: seq<Section> := [FIRST, NEXT], [NEXT], [];
    assert both[1..] == next && next[1..] == none;
    SectionShapes();
    FlattenOne(rest[0]);
    FirstRun([], both, rest);
    FirstRun(AFTER, next, rest);
    assert RunsFrom(LAST, none, rest) == [LAST + LAST];
    var runs := RunsFrom([], both, rest);
    FirstAndRest(runs);
    FirstAndRest(runs[1..]);
    assert runs == [[] + LATE[..1], AFTER + EARLY[..1], LAST + LAST];
    SumThree(Each(RunLength, runs));
    assert Interrupted(LAST, none, rest, 0);
    assert Interrupted(AFTER, next, rest, 0);
  }
}
