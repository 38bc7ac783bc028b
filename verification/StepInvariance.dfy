/** What a recording interrupted by clock steps is measured as does not depend on the sizes
    of the steps, as long as messages leaked ahead of a record can be told apart. */
module StepInvariance {
  import opened Spans
  import opened Timeline
  import opened Conservation
  import opened ChannelSpan
  import opened Leak
  import opened Feed
  import opened FeedLoop
  import opened MessageIndexes
  import opened RunHulls
  import opened Sections
  import opened Phases

  // ---------------------------------------------------------------- feeding sections

  /** What feeding a section does: the messages of the entry just before the record
      go on either side of it. */
  function SectionFed(f: Feeding, s: Section, resumes: Option<nat>): Feeding {
    PushAcrossStep(FeedParts(f, s.Body()), s.LastData(), s.step.size, resumes)
  }

  /** How many of a section's messages are fed ahead of its record. */
  function RecordPlace(f: Feeding, s: Section, resumes: Option<nat>): nat {
    |Flatten(s.Body())| + SplitIndex(s.LastData(), s.step.size, LastEnd(FeedParts(f, s.Body())), resumes)
  }

  /** Every record of the file is fed just ahead of the messages taken after its step. */
  predicate SplitRight(f: Feeding, sections: seq<Section>, rest: seq<Part>)
    decreases |sections|
  {
    |sections| > 0 ==>
      var resumes := FirstLogTime(FileEntries(sections[1..], rest));
      && RecordPlace(f, sections[0], resumes) == sections[0].split
      && SplitRight(SectionFed(f, sections[0], resumes), sections[1..], rest)
  }

  /** The entry just before a record, whether read or compressed, is fed across it. */
  lemma FeedLast(read: Reader, f: Feeding, last: Part, step: ClockStep, after: seq<Entry>)
    requires TruthfulPart(read, last) && !last.Bare?
    ensures var entries := [last.AsEntry(), StepEntry(step)] + after;
            FeedAll(IndexesOf(read), f, entries)
              == FeedAll(IndexesOf(read), PushAcrossStep(f, last.Data(), step.size, FirstLogTime(after)), after)
  {
    hide PushAcrossStep, FirstLogTime, MessageTimes, ExtentIn, TruthfulIndexes;
    var entries := [last.AsEntry(), StepEntry(step)] + after;
    assert entries[2..] == after;
    assert NextStep(entries) == Some(step);
    if last.Packed? {
      PackedHasIndex(read, last);
    }
    assert TakesNext(entries);
    assert FeedEntry(IndexesOf(read), f, entries) == PushAcrossStep(f, last.Data(), step.size, FirstLogTime(after));
  }

  /** A record with no messages to take with it. */
  lemma FeedRecord(read: Reader, f: Feeding, step: ClockStep, after: seq<Entry>)
    ensures FeedAll(IndexesOf(read), f, [StepEntry(step)] + after)
         == FeedAll(IndexesOf(read), PushAcrossStep(f, [], step.size, FirstLogTime(after)), after)
  {
    hide FirstLogTime;
    var entries := [StepEntry(step)] + after;
    assert entries[1..] == after;
    assert FeedEntry(IndexesOf(read), f, entries) == Call(f, Stepped(step.size));
  }

  /** The last entry of a section with its record; a bare one takes no messages across. */
  lemma FeedEnd(read: Reader, f: Feeding, last: Part, step: ClockStep, after: seq<Entry>)
    requires TruthfulPart(read, last)
    ensures FeedAll(IndexesOf(read), f, [last.AsEntry()] + ([StepEntry(step)] + after))
         == FeedAll(IndexesOf(read), PushAcrossStep(f, last.Data(), step.size, FirstLogTime(after)), after)
  {
    hide FeedAll, PushAcrossStep, FirstLogTime, IndexesOf, TruthfulPart;
    var record := [StepEntry(step)] + after;
    if last.Bare? {
      BareThenRecord(read, f, last, record);
      FeedRecord(read, f, step, after);
    } else {
      assert [last.AsEntry()] + record == [last.AsEntry(), StepEntry(step)] + after;
      FeedLast(read, f, last, step, after);
    }
  }

  lemma FeedSectionEntries(read: Reader, f: Feeding, s: Section, after: seq<Entry>)
    requires TruthfulParts(read, s.parts)
    ensures FeedAll(IndexesOf(read), f, SectionEntries(s) + after)
         == FeedAll(IndexesOf(read), SectionFed(f, s, FirstLogTime(after)), after)
  {
    hide FeedAll, PushAcrossStep, FeedParts, FirstLogTime, IndexesOf, TruthfulPart, PartEntries, FeedPart;
    var record := [StepEntry(s.step)] + after;
    Regroup(PartEntries(s.parts), [StepEntry(s.step)], after);
    if |s.parts| == 0 {
      NoParts(f);
      assert s.parts == [];
      assert [] + record == record;
      FeedRecord(read, f, s.step, after);
    } else {
      var n := |s.parts| - 1;
      FlattenLast(s.parts);
      var last := [s.parts[n].AsEntry()] + record;
      Regroup(PartEntries(s.Body()), [s.parts[n].AsEntry()], record);
      assert TruthfulPart(read, s.parts[n]);
      FeedBody(read, f, s.Body(), last);
      FeedEnd(read, FeedParts(f, s.Body()), s.parts[n], s.step, after);
    }
  }

  lemma NoParts(f: Feeding)
    ensures PartEntries([]) == [] && FeedParts(f, []) == f
  {
  }

  lemma BareThenRecord(read: Reader, f: Feeding, part: Part, after: seq<Entry>)
    requires part.Bare? && TruthfulPart(read, part)
    ensures FeedAll(IndexesOf(read), f, [part.AsEntry()] + after) == FeedAll(IndexesOf(read), f, after)
  {
    hide FeedEntry, IndexesOf, TakesNext;
    FeedOnePart(read, f, part, after);
    assert ([part.AsEntry()] + after)[1..] == after;
  }

  lemma PointsEndAt(f: Feeding, times: seq<Stamp>)
    ensures LastEnd(PushPoints(f, times)) == if |times| == 0 then LastEnd(f) else LastOf(times)
  {
    hide Push, PushPoints;
    if |times| > 0 {
      var n := |times| - 1;
      PointsMore(f, times);
      CallTimeline(PushPoints(f, times[..n]), Pushed(Point(times[n].0)));
      PushIsLast(PushPoints(f, times[..n]).Timeline(), Point(times[n].0));
    } else {
      NoPoints(f, times);
    }
  }

  lemma PointsMore(f: Feeding, times: seq<Stamp>)
    requires |times| > 0
    ensures var n := |times| - 1;
            PushPoints(f, times).Timeline() == Call(PushPoints(f, times[..n]), Pushed(Point(times[n].0))).Timeline()
  {
  }

  lemma NoPoints(f: Feeding, times: seq<Stamp>)
    requires |times| == 0
    ensures PushPoints(f, times) == f
  {
  }

  /** Where the data ends is told by the entries alone. */
  lemma {:induction false} PartsEndAt(f: Feeding, parts: seq<Part>)
    ensures LastEnd(FeedParts(f, parts)) == EndAfter(LastEnd(f), parts)
    decreases |parts|
  {
    hide LastEnd, FeedPart, PartEnd;
    if |parts| > 0 {
      PartEndsAt(f, parts[0]);
      PartsEndAt(FeedPart(f, parts[0]), parts[1..]);
    }
  }

  lemma PartEndsAt(f: Feeding, part: Part)
    ensures LastEnd(FeedPart(f, part)) == PartEnd(LastEnd(f), part)
  {
    hide Push, PushPoints, Run, Straddles, Hold;
    PointsEndAt(f, part.Data());
    if part.Packed? {
      var span := Span(part.chunk.startTime, part.chunk.endTime);
      CallTimeline(f, Pushed(span));
      PushIsLast(Run(f.authoritative, f.events).state, span);
    }
  }

  lemma PlaceIs(f: Feeding, s: Section, resumes: Option<nat>)
    ensures RecordPlace(f, s, resumes) == PlaceOf(LastEnd(f), s, resumes)
  {
    hide LastEnd, EndAfter, FeedParts, SplitIndex, Flatten;
    PartsEndAt(f, s.Body());
  }

  /** A section's record is fed at the leak if and only if the leak can be seen. */
  lemma RecordAtLeak(read: Reader, f: Feeding, p: Phase, begun: seq<Stamp>, s: Section, resumes: Option<nat>, d: nat)
    requires s.Valid() && TruthfulParts(read, s.parts) && AtRun(read, f, p, begun) && SectionFits(begun, s, d)
             && d <= STEP_GAP_NS
    ensures RecordPlace(f, s, resumes) == PlaceOf(LastOf(begun), s, resumes) >= s.split
    ensures RecordPlace(f, s, resumes) == s.split <==> LeakSeen(begun, s, resumes)
  {
    hide OnRun, Recorded, RecordPlace, PlaceOf, LeakSeen, SectionFits, TruthfulParts, LastEnd, LastOf;
    PlaceIs(f, s, resumes);
    PlaceAtLeak(read, begun, s, resumes, d);
  }

  /** What a section's entries and its record are pushed as. */
  lemma FedAcross(f: Feeding, s: Section, resumes: Option<nat>) returns (k: nat)
    ensures k <= |s.LastData()| && RecordPlace(f, s, resumes) == |Flatten(s.Body())| + k
    ensures SectionFed(f, s, resumes)
         == PushPoints(Call(PushPoints(FeedParts(f, s.Body()), s.LastData()[..k]), Stepped(s.step.size)),
             s.LastData()[k..])
  {
    hide FeedParts, PushPoints, SplitIndex, LastEnd, Flatten;
    k := SplitIndex(s.LastData(), s.step.size, LastEnd(FeedParts(f, s.Body())), resumes);
  }

  /** Messages after a record begin a piece. */
  lemma PushAfter(read: Reader, f: Feeding, p: Phase, times: seq<Stamp>, d: nat)
    requires AtRun(read, f, p, []) && p.pending == None && SteadyRun(times, d) && d <= STEP_GAP_NS
    ensures AtRun(read, PushPoints(f, times), p, times)
  {
    hide AtRun, SteadyRun, PushPoints;
    assert [] + times == times;
    PushMany(read, f, p, [], times, d);
  }

  /** A section whose record is fed at the leak ends its run there. */
  lemma SeenSection(read: Reader, f: Feeding, p: Phase, begun: seq<Stamp>, s: Section, resumes: Option<nat>, d: nat)
    requires s.Valid() && TruthfulParts(read, s.parts) && AtRun(read, f, p, begun) && p.pending == None
    requires SectionFits(begun, s, d) && d <= STEP_GAP_NS && RecordPlace(f, s, resumes) == s.split
    requires Total(p.done) + PieceLength(begun + s.Own()) <= U64_MAX
    ensures AtRun(read, SectionFed(f, s, resumes), Ended(p, begun + s.Own()), s.Leaked())
  {
    hide *;
    FitsFacts(begun, s, d);
    var k := FedAcross(f, s, resumes);
    var own := OwnInLast(begun, s);
    var before := begun + Flatten(s.Body());
    BodyIsSteady(read, begun, s, own, d);
    StaysOpen(p, before);
    PartsAtRun(read, f, p, begun, s.Body(), d);
    var g := FeedParts(f, s.Body());
    assert s.LastData()[..k] == own && s.LastData()[k..] == s.Leaked();
    StaysOpen(p, before + own);
    PushMany(read, g, p, before, own, d);
    StepBetweenRuns(read, PushPoints(g, own), p, before + own, s.step.size);
    EndedFields(p, before + own);
    PushAfter(read, Call(PushPoints(g, own), Stepped(s.step.size)), Ended(p, before + own), s.Leaked(), d);
  }

  lemma StaysOpen(p: Phase, run: seq<Stamp>)
    requires p.pending == None
    ensures KeepsOpen(p, run)
  {
  }

  lemma EndedFields(p: Phase, run: seq<Stamp>)
    ensures Ended(p, run).pending == None && Ended(p, run).done == Add(p.done, run)
            && Ended(p, run).steps == p.steps + 1
    ensures Ended(p, run).channels == p.channels
  {
  }

  /** Up to where the record of a far leak is fed when it is not seen: after all of it. */
  lemma FarPlace(read: Reader, g: Feeding, q: Phase, s: Section, early: seq<Stamp>, resumes: Option<nat>, d: nat)
    requires AtRun(read, g, q, early) && SteadyRun(early + s.LastData(), d) && Abs(s.step.size) > 2 * d
    ensures SplitIndex(s.LastData(), s.step.size, LastEnd(g), resumes) == |s.LastData()|
  {
    hide OnRun, Recorded, LeakSplit, SteadyRun, LastEnd, Steady;
    PointsSteady(early, s.LastData(), d);
    NoLeakNoSplit(s.LastData(), s.step.size, LastOf(early), resumes, d);
  }

  /** Once all of a far leak has been pushed, the record leaves it where it is. */
  lemma FarEnd(read: Reader, f: Feeding, p: Phase, begun: seq<Stamp>, s: Section, resumes: Option<nat>, q: Phase,
               k: nat, d: nat)
    requires s.Valid() && SectionFits(begun, s, d) && d <= STEP_GAP_NS && |s.Leaked()| > 0 && k == |s.LastData()|
    requires SectionFed(f, s, resumes)
          == PushPoints(Call(PushPoints(FeedParts(f, s.Body()), s.LastData()[..k]), Stepped(s.step.size)),
              s.LastData()[k..])
    requires OpenedFar(p, begun + s.Own(), s.Leaked()[0].0, q)
    requires AtRun(read, PushPoints(FeedParts(f, s.Body()), s.LastData()), q, s.Leaked())
    ensures AtRun(read, SectionFed(f, s, resumes), Ended(p, begun + s.Own()), s.Leaked())
  {
    hide *;
    FitsFacts(begun, s, d);
    OpenedFields(p, begun + s.Own(), s.Leaked()[0].0, q);
    assert s.LastData()[..k] == s.LastData() && s.LastData()[k..] == [];
    var h := PushPoints(FeedParts(f, s.Body()), s.LastData());
    FarRecord(read, h, p, begun + s.Own(), q, s.Leaked(), s.step.size, d);
    NoPoints(Call(h, Stepped(s.step.size)), []);
  }

  lemma FarFacts(begun: seq<Stamp>, s: Section, d: nat)
    requires s.Valid() && SectionFits(begun, s, d) && FarLeak(begun, s) && d <= STEP_GAP_NS
    ensures FarFits(begun + s.Own(), s.Leaked(), d) && |s.Leaked()| > 0 && |begun + s.Own()| > 0
  {
    hide SteadyRun, FarFrom;
    LeakOrder(s.Leaked(), 0, |s.Leaked()| - 1, d);
  }

  /** A far leak that begins before the last entry. */
  lemma FarInBody(read: Reader, f: Feeding, p: Phase, begun: seq<Stamp>, s: Section, resumes: Option<nat>, d: nat)
    requires s.Valid() && TruthfulParts(read, s.parts) && AtRun(read, f, p, begun) && p.pending == None
    requires SectionFits(begun, s, d) && d <= STEP_GAP_NS && FarLeak(begun, s) && |Flatten(s.Body())| > s.split
    requires Total(p.done) + PieceLength(begun + s.Own()) <= U64_MAX
    ensures AtRun(read, SectionFed(f, s, resumes), Ended(p, begun + s.Own()), s.Leaked())
  {
    hide *;
    FitsFacts(begun, s, d);
    FarFacts(begun, s, d);
    var k := FedAcross(f, s, resumes);
    var early := LeakInBody(s);
    BodyIsTruthful(read, s);
    var q := PartsAcross(read, f, p, begun, s.Body(), s.Own(), early, s.LastData(), d);
    var g := FeedParts(f, s.Body());
    FarPlace(read, g, q, s, early, resumes, d);
    PlaceSplits(f, s, resumes);
    FarStaysOpen(q, begun + s.Own(), s.Leaked(), d);
    PushMany(read, g, q, early, s.LastData(), d);
    FarEnd(read, f, p, begun, s, resumes, q, k, d);
  }

  lemma LeakInBody(s: Section) returns (early: seq<Stamp>)
    requires s.Valid() && |Flatten(s.Body())| > s.split
    ensures Flatten(s.Body()) == s.Own() + early && s.Leaked() == early + s.LastData() && |early| > 0
    ensures |s.Leaked()| > 0 && early[0] == s.Leaked()[0]
  {
    hide Flatten, s.Body, s.LastData;
    BodyAndLast(s);
    early := Flatten(s.Body())[s.split..];
  }

  lemma BodyIsTruthful(read: Reader, s: Section)
    requires TruthfulParts(read, s.parts)
    ensures TruthfulParts(read, s.Body())
  {
    hide TruthfulPart;
  }

  lemma PlaceSplits(f: Feeding, s: Section, resumes: Option<nat>)
    ensures RecordPlace(f, s, resumes)
         == |Flatten(s.Body())| + SplitIndex(s.LastData(), s.step.size, LastEnd(FeedParts(f, s.Body())), resumes)
  {
    hide SplitIndex, LastEnd, FeedParts, Flatten;
  }

  lemma FarStaysOpen(q: Phase, run: seq<Stamp>, leaked: seq<Stamp>, d: nat)
    requires FarFits(run, leaked, d)
    ensures KeepsOpen(q, leaked) && SteadyRun(leaked, d)
  {
    hide SteadyRun, RunLength, FarFrom;
  }

  /** A far leak in the entry just before the record that is not seen. */
  lemma FarInLast(read: Reader, f: Feeding, p: Phase, begun: seq<Stamp>, s: Section, resumes: Option<nat>, d: nat)
    requires s.Valid() && TruthfulParts(read, s.parts) && AtRun(read, f, p, begun) && p.pending == None
    requires SectionFits(begun, s, d) && d <= STEP_GAP_NS && FarLeak(begun, s) && |Flatten(s.Body())| <= s.split
    requires !LeakSeen(begun, s, resumes) && Total(p.done) + PieceLength(begun + s.Own()) <= U64_MAX
    ensures AtRun(read, SectionFed(f, s, resumes), Ended(p, begun + s.Own()), s.Leaked())
  {
    hide *;
    FitsFacts(begun, s, d);
    FarFacts(begun, s, d);
    var k := FedAcross(f, s, resumes);
    var own := OwnInLast(begun, s);
    var before := begun + Flatten(s.Body());
    BodyIsSteady(read, begun, s, own, d);
    StaysOpen(p, before);
    PartsAtRun(read, f, p, begun, s.Body(), d);
    var g := FeedParts(f, s.Body());
    UnseenIsVetoed(begun, s, resumes);
    assert s.LastData()[|s.LastData()| - 1] == s.Leaked()[|s.Leaked()| - 1];
    VetoedPlace(s.LastData(), s.step.size, LastEnd(g), resumes);
    PlaceSplits(f, s, resumes);
    assert s.Leaked() + [] == s.Leaked();
    var q := PointsAcross(read, g, p, before, own, s.Leaked(), [], d);
    FarEnd(read, f, p, begun, s, resumes, q, k, d);
  }

  lemma UnseenIsVetoed(begun: seq<Stamp>, s: Section, resumes: Option<nat>)
    requires s.Valid() && !LeakSeen(begun, s, resumes) && |begun + s.Own()| > 0 && |Flatten(s.Body())| <= s.split
    ensures |s.Leaked()| > 0 && Vetoed(s.Leaked()[|s.Leaked()| - 1].0, s.step.size, resumes)
  {
    hide Vetoed, Flatten;
  }

  /** A leak neither seen nor far is measured with its run as far as it is fed ahead of the record. */
  lemma MixSection(read: Reader, f: Feeding, p: Phase, begun: seq<Stamp>, s: Section, resumes: Option<nat>, d: nat)
    requires s.Valid() && TruthfulParts(read, s.parts) && AtRun(read, f, p, begun) && p.pending == None
    requires SectionFits(begun, s, d) && d <= STEP_GAP_NS && !FarLeak(begun, s)
    requires s.split <= RecordPlace(f, s, resumes) <= |Flatten(s.parts)|
    requires Total(p.done) + PieceLength(begun + Flatten(s.parts)[..RecordPlace(f, s, resumes)]) <= U64_MAX
    ensures var n := RecordPlace(f, s, resumes);
            AtRun(read, SectionFed(f, s, resumes), Ended(p.(channels := false), begun + Flatten(s.parts)[..n]),
                Flatten(s.parts)[n..])
  {
    hide *;
    FitsFacts(begun, s, d);
    var k := FedAcross(f, s, resumes);
    var run, leaked, body := begun + s.Own(), s.Leaked(), Flatten(s.Body());
    var n := |body| + k;
    MixFacts(begun, s, d);
    MixStarts(read, f, p, begun, s);
    MixPieces(begun, s, k);
    BodyIsTruthful(read, s);
    MixParts(read, f, p, run, leaked, |begun|, s.Body(), d);
    var g := FeedParts(f, s.Body());
    MixPoints(g, p, run, leaked, |begun| + |body|, s.LastData()[..k], d);
    var piece := begun + Flatten(s.parts)[..n];
    MixEnds(read, PushPoints(g, s.LastData()[..k]), p, run, leaked, |begun| + n, piece, s.step.size);
    var q := Ended(p.(channels := false), piece);
    EndedFields(p.(channels := false), piece);
    SteadySuffix(leaked, d, n - s.split);
    PushAfter(read, Call(PushPoints(g, s.LastData()[..k]), Stepped(s.step.size)), q, s.LastData()[k..], d);
  }

  lemma MixFacts(begun: seq<Stamp>, s: Section, d: nat)
    requires s.Valid() && SectionFits(begun, s, d) && !FarLeak(begun, s) && d <= STEP_GAP_NS
    ensures MixFits(begun + s.Own(), s.Leaked(), d)
  {
    hide SteadyRun, FarFrom;
    if |s.Leaked()| > 0 {
      LeakOrder(s.Leaked(), 0, |s.Leaked()| - 1, d);
    }
  }

  lemma MixStarts(read: Reader, f: Feeding, p: Phase, begun: seq<Stamp>, s: Section)
    requires s.Valid() && AtRun(read, f, p, begun)
    ensures InMix(f, p, begun + s.Own(), s.Leaked(), |begun|)
  {
    hide OnRun, Recorded, LastEnd;
    assert (begun + s.Own() + s.Leaked())[..|begun|] == begun;
  }

  /** How a section's messages lie in its run and leak. */
  lemma MixPieces(begun: seq<Stamp>, s: Section, k: nat)
    requires s.Valid() && k <= |s.LastData()| && s.split <= |Flatten(s.Body())| + k
    ensures var x, body, n := begun + s.Own() + s.Leaked(), Flatten(s.Body()), |Flatten(s.Body())| + k;
            && |begun| + n <= |x| && x[|begun|..|begun| + |body|] == body && n <= |Flatten(s.parts)|
            && x[|begun| + |body|..|begun| + n] == s.LastData()[..k]
            && x[..|begun| + n] == begun + Flatten(s.parts)[..n]
            && Flatten(s.parts)[n..] == s.LastData()[k..] == s.Leaked()[n - s.split..] && n - s.split <= |s.Leaked()|
  {
    hide Flatten, s.Body, s.LastData;
    BodyAndLast(s);
    var data := Flatten(s.parts);
    assert s.Own() + s.Leaked() == data;
    Regroup(begun, s.Own(), s.Leaked());
    InPieces(begun, Flatten(s.Body()), s.LastData(), k);
    var n := |Flatten(s.Body())| + k;
    assert data[n..] == data[s.split..][n - s.split..];
  }

  lemma InPieces<T>(a: seq<T>, b: seq<T>, c: seq<T>, k: nat)
    requires k <= |c|
    ensures var x, n := a + (b + c), |b| + k;
            && x[|a|..|a| + |b|] == b && x[|a| + |b|..|a| + n] == c[..k]
            && x[..|a| + n] == a + (b + c)[..n] && (b + c)[n..] == c[k..]
  {
  }

  lemma MixEnds(read: Reader, f: Feeding, p: Phase, run: seq<Stamp>, leaked: seq<Stamp>, i: nat, piece: seq<Stamp>,
                step: int)
    requires InMix(f, p, run, leaked, i) && p.pending == None && piece == (run + leaked)[..i]
    requires Total(p.done) + PieceLength(piece) <= U64_MAX
    ensures AtRun(read, Call(f, Stepped(step)), Ended(p.(channels := false), piece), [])
  {
    hide OnRun, RecordStep, Recorded, EndFits, Total, PieceLength, Run;
    CallTimeline(f, Stepped(step));
    Followed(f.Timeline(), p, piece);
    StepEnds(f.Timeline(), p.(channels := false), piece, step);
  }

  lemma Followed(s: State, p: Phase, run: seq<Stamp>)
    requires OnRun(s, p, run)
    ensures OnRun(s, p.(channels := false), run)
  {
  }

  // ---------------------------------------------------------------- feeding whole files

  /** Whether a section's leak can be told apart from its run. */
  predicate ToldApart(begun: seq<Stamp>, s: Section, resumes: Option<nat>)
    requires s.Valid()
  {
    LeakSeen(begun, s, resumes) || FarLeak(begun, s)
  }

  /** A section's messages are parted at the leak if and only if it can be told apart. */
  lemma PartedAtLeak(read: Reader, begun: seq<Stamp>, s: Section, resumes: Option<nat>, d: nat)
    requires s.Valid() && TruthfulParts(read, s.parts) && SectionFits(begun, s, d) && d <= STEP_GAP_NS
    ensures PartedAt(begun, s, resumes) >= s.split
    ensures PartedAt(begun, s, resumes) == s.split <==> ToldApart(begun, s, resumes)
  {
    hide LeakSeen, FarLeak, PlaceOf, SectionFits, TruthfulParts, LastOf, Flatten;
    PlaceAtLeak(read, begun, s, resumes, d);
  }

  /** A section ends one piece, up to where its messages are parted, and begins the next. */
  lemma SectionMeasured(read: Reader, f: Feeding, p: Phase, begun: seq<Stamp>, s: Section, resumes: Option<nat>, d: nat)
    requires s.Valid() && TruthfulParts(read, s.parts) && AtRun(read, f, p, begun) && p.pending == None
    requires SectionFits(begun, s, d) && d <= STEP_GAP_NS
    requires Total(p.done) + PieceLength(begun + Flatten(s.parts)[..PartedAt(begun, s, resumes)]) <= U64_MAX
    ensures var n := PartedAt(begun, s, resumes);
            var q := p.(channels := p.channels && ToldApart(begun, s, resumes));
            AtRun(read, SectionFed(f, s, resumes), Ended(q, begun + Flatten(s.parts)[..n]), Flatten(s.parts)[n..])
  {
    hide *;
    RecordAtLeak(read, f, p, begun, s, resumes, d);
    PartedAtLeak(read, begun, s, resumes, d);
    PartedIs(begun, s, resumes);
    OwnAndLeaked(s);
    var told := ToldApart(begun, s, resumes);
    if LeakSeen(begun, s, resumes) {
      SeenSection(read, f, p, begun, s, resumes, d);
    } else if FarLeak(begun, s) {
      if |Flatten(s.Body())| > s.split {
        FarInBody(read, f, p, begun, s, resumes, d);
      } else {
        FarInLast(read, f, p, begun, s, resumes, d);
      }
    } else {
      MixSection(read, f, p, begun, s, resumes, d);
    }
  }

  lemma PartedIs(begun: seq<Stamp>, s: Section, resumes: Option<nat>)
    requires s.Valid()
    ensures PartedAt(begun, s, resumes) == if FarLeak(begun, s) then s.split else PlaceOf(LastOf(begun), s, resumes)
    ensures ToldApart(begun, s, resumes) <==> LeakSeen(begun, s, resumes) || FarLeak(begun, s)
  {
    hide LeakSeen, FarLeak, PlaceOf, LastOf, Flatten;
  }

  lemma OwnAndLeaked(s: Section)
    requires s.Valid()
    ensures s.split <= |Flatten(s.parts)| && s.Own() == Flatten(s.parts)[..s.split]
            && s.Leaked() == Flatten(s.parts)[s.split..]
  {
  }

  /** What is assumed from a leak on holds from any later message of it on. */
  lemma InterruptedFrom(leaked: seq<Stamp>, k: nat, sections: seq<Section>, rest: seq<Part>, d: nat)
    requires AllValid(sections) && k <= |leaked| && Interrupted(leaked, sections, rest, d)
    ensures Interrupted(leaked[k..], sections, rest, d)
  {
    hide SteadyRun, SteppedFrom, Flatten;
    var more := if |sections| == 0 then Flatten(rest) else sections[0].Own();
    assert (leaked + more)[k..] == leaked[k..] + more;
    SteadySuffix(leaked + more, d, k);
  }

  /** The pieces that have messages. */
  function Nonempty(pieces: seq<seq<Stamp>>): seq<seq<Stamp>> {
    if |pieces| == 0 then []
    else (if |pieces[0]| == 0 then [] else [pieces[0]]) + Nonempty(pieces[1..])
  }

  lemma {:induction false} SumSplit(a: seq<nat>, b: seq<nat>)
    ensures Sum(a + b) == Sum(a) + Sum(b)
  {
    if |b| == 0 {
      assert a + b == a;
    } else {
      var n := |b| - 1;
      assert (a + b)[..|a| + n] == a + b[..n];
      SumSplit(a, b[..n]);
    }
  }

  lemma SumFirst(measure: seq<Stamp> -> nat, pieces: seq<seq<Stamp>>)
    requires |pieces| > 0
    ensures Sum(Each(measure, pieces)) == measure(pieces[0]) + Sum(Each(measure, pieces[1..]))
  {
    var all := Each(measure, pieces);
    assert all == [measure(pieces[0])] + Each(measure, pieces[1..]);
    SumSplit([measure(pieces[0])], Each(measure, pieces[1..]));
    assert [measure(pieces[0])][..0] == [];
  }

  lemma FirstKept(pieces: seq<seq<Stamp>>)
    requires |pieces| > 0
    ensures var kept, rest := Nonempty(pieces), Nonempty(pieces[1..]);
            if |pieces[0]| == 0 then pieces[0] == [] && kept == rest
            else |kept| > 0 && kept[0] == pieces[0] && kept[1..] == rest
  {
  }

  /** Pieces without messages add nothing to a measure. */
  lemma {:induction false} SumNonempty(measure: seq<Stamp> -> nat, pieces: seq<seq<Stamp>>)
    requires measure([]) == 0
    ensures Sum(Each(measure, Nonempty(pieces))) == Sum(Each(measure, pieces))
  {
    if |pieces| == 0 {
      NonemptyOfNone(pieces);
    } else {
      hide *;
      SumFirst(measure, pieces);
      SumNonempty(measure, pieces[1..]);
      FirstKept(pieces);
      if |pieces[0]| > 0 {
        SumFirst(measure, Nonempty(pieces));
      }
    }
  }

  /** The pieces over, with the one that has begun. */
  lemma SumOfAll(measure: seq<Stamp> -> nat, pieces: seq<seq<Stamp>>)
    requires measure([]) == 0 && |pieces| > 0
    ensures var n := |pieces| - 1;
            Sum(Each(measure, Nonempty(pieces[..n]) + [pieces[n]])) == Sum(Each(measure, pieces))
  {
    var n := |pieces| - 1;
    var kept := Nonempty(pieces[..n]);
    SumNonempty(measure, pieces[..n]);
    assert Each(measure, kept + [pieces[n]])[..|kept|] == Each(measure, kept);
    assert Each(measure, pieces)[..n] == Each(measure, pieces[..n]);
  }

  lemma FirstPiece(begun: seq<Stamp>, sections: seq<Section>, rest: seq<Part>)
    requires |sections| > 0 && AllValid(sections)
    ensures sections[0].Valid() && AllValid(sections[1..])
    ensures var s, resumes := sections[0], FirstLogTime(FileEntries(sections[1..], rest));
            var n, pieces := PartedAt(begun, s, resumes), PiecesFrom(begun, sections, rest);
            && |pieces| == |sections| + 1 && pieces[0] == begun + Flatten(s.parts)[..n]
            && pieces[1..] == PiecesFrom(Flatten(s.parts)[n..], sections[1..], rest)
  {
    hide PartedAt, FirstLogTime, FileEntries, Flatten;
  }

  lemma FirstRun(begun: seq<Stamp>, sections: seq<Section>, rest: seq<Part>)
    requires |sections| > 0 && AllValid(sections)
    ensures sections[0].Valid() && AllValid(sections[1..])
    ensures var s, runs := sections[0], RunsFrom(begun, sections, rest);
            && |runs| == |sections| + 1 && runs[0] == begun + s.Own()
            && runs[1..] == RunsFrom(s.Leaked(), sections[1..], rest)
  {
    hide Flatten;
  }

  lemma MoreSections(f: Feeding, begun: seq<Stamp>, sections: seq<Section>, rest: seq<Part>)
    requires |sections| > 0 && AllValid(sections)
    ensures AllValid(sections[1..]) && sections[0].Valid()
    ensures var s, resumes := sections[0], FirstLogTime(FileEntries(sections[1..], rest));
            && (SplitRight(f, sections, rest) <==>
                  && RecordPlace(f, s, resumes) == s.split
                  && SplitRight(SectionFed(f, s, resumes), sections[1..], rest))
            && (AllLeaksSeen(begun, sections, rest)
                <==> LeakSeen(begun, s, resumes) && AllLeaksSeen(s.Leaked(), sections[1..], rest))
            && (AllToldApart(begun, sections, rest)
                <==> ToldApart(begun, s, resumes) && AllToldApart(s.Leaked(), sections[1..], rest))
  {
    hide RecordPlace, SectionFed, LeakSeen, FarLeak, FileEntries, FirstLogTime, Flatten;
  }

  lemma NoSections(f: Feeding, begun: seq<Stamp>, sections: seq<Section>, rest: seq<Part>)
    requires |sections| == 0
    ensures AllValid(sections) && SplitRight(f, sections, rest)
    ensures AllLeaksSeen(begun, sections, rest) && AllToldApart(begun, sections, rest)
    ensures FileEntries(sections, rest) == PartEntries(rest)
  {
  }

  /** The pieces are the runs if and only if every leak can be told apart. */
  lemma {:induction false} PiecesAreRuns(read: Reader, begun: seq<Stamp>, sections: seq<Section>, rest: seq<Part>,
                                         d: nat)
    requires AllValid(sections) && Interrupted(begun, sections, rest, d) && d <= STEP_GAP_NS
             && TruthfulFile(read, sections, rest)
    ensures PiecesFrom(begun, sections, rest) == RunsFrom(begun, sections, rest)
            <==> AllToldApart(begun, sections, rest)
    decreases |sections|
  {
    hide *;
    if |sections| == 0 {
      NoSections(Feed.Start(true), begun, sections, rest);
      LastRun(begun, sections, rest, d);
    } else {
      var s, resumes := sections[0], FirstLogTime(FileEntries(sections[1..], rest));
      var pieces, runs := PiecesFrom(begun, sections, rest), RunsFrom(begun, sections, rest);
      OtherSections(read, begun, sections, rest, d);
      FirstPiece(begun, sections, rest);
      FirstRun(begun, sections, rest);
      MoreSections(Feed.Start(true), begun, sections, rest);
      PartedAtLeak(read, begun, s, resumes, d);
      OwnAndLeaked(s);
      PiecesAreRuns(read, s.Leaked(), sections[1..], rest, d);
      SameSeqs(pieces, runs);
    }
  }

  lemma SameSeqs<T>(a: seq<T>, b: seq<T>)
    requires |a| > 0 && |b| > 0
    ensures a == b <==> a[0] == b[0] && a[1..] == b[1..]
  {
    if a[0] == b[0] && a[1..] == b[1..] {
      assert a == [a[0]] + a[1..] && b == [b[0]] + b[1..];
    }
  }

  lemma FeedRest(read: Reader, f: Feeding, p: Phase, begun: seq<Stamp>, rest: seq<Part>, d: nat)
    requires AtRun(read, f, p, begun) && p.pending == None && SteadyRun(begun + Flatten(rest), d) && d <= STEP_GAP_NS
    requires TruthfulParts(read, rest)
    ensures AtRun(read, FeedAll(IndexesOf(read), f, PartEntries(rest)), p, begun + Flatten(rest))
  {
    hide AtRun, SteadyRun, FeedParts, TruthfulPart, IndexesOf;
    assert PartEntries(rest) + [] == PartEntries(rest);
    FeedBody(read, f, rest, []);
    PartsAtRun(read, f, p, begun, rest, d);
  }

  /** Room for the first of some pieces, and for the others after it. */
  lemma RoomFor(done: seq<seq<Stamp>>, pieces: seq<seq<Stamp>>)
    requires |pieces| > 0 && Total(done) + Total(pieces) <= U64_MAX
    ensures Total(done) + PieceLength(pieces[0]) <= U64_MAX
            && Total(Add(done, pieces[0])) + Total(pieces[1..]) <= U64_MAX
  {
    hide PieceLength, Each;
    SumFirst(PieceLength, pieces);
    TotalMore(done, pieces[0]);
  }

  /** The first section, and what is left to feed. */
  lemma FirstSection(read: Reader, f: Feeding, p: Phase, begun: seq<Stamp>, sections: seq<Section>, rest: seq<Part>,
                     d: nat)
    returns (g: Feeding, q: Phase, next: seq<Stamp>)
    requires |sections| > 0 && AllValid(sections) && AtRun(read, f, p, begun) && p.pending == None
    requires Interrupted(begun, sections, rest, d) && d <= STEP_GAP_NS && TruthfulFile(read, sections, rest)
    requires Total(p.done) + Total(PiecesFrom(begun, sections, rest)) <= U64_MAX
    ensures AllValid(sections[1..])
    ensures var s, resumes := sections[0], FirstLogTime(FileEntries(sections[1..], rest));
            && s.Valid() && g == SectionFed(f, s, resumes) && next == Flatten(s.parts)[PartedAt(begun, s, resumes)..]
            && q == Ended(p.(channels := p.channels && ToldApart(begun, s, resumes)),
                PiecesFrom(begun, sections, rest)[0])
            && (ToldApart(begun, s, resumes) ==> next == s.Leaked())
    ensures AtRun(read, g, q, next) && q.pending == None && Interrupted(next, sections[1..], rest, d)
    ensures TruthfulFile(read, sections[1..], rest)
    ensures PiecesFrom(begun, sections, rest)[1..] == PiecesFrom(next, sections[1..], rest)
    ensures Total(q.done) + Total(PiecesFrom(next, sections[1..], rest)) <= U64_MAX
    ensures FeedAll(IndexesOf(read), f, FileEntries(sections, rest))
            == FeedAll(IndexesOf(read), g, FileEntries(sections[1..], rest))
  {
    hide *;
    var s, resumes := sections[0], FirstLogTime(FileEntries(sections[1..], rest));
    OtherSections(read, begun, sections, rest, d);
    FirstPiece(begun, sections, rest);
    RoomFor(p.done, PiecesFrom(begun, sections, rest));
    SectionMeasured(read, f, p, begun, s, resumes, d);
    PartedAtLeak(read, begun, s, resumes, d);
    OwnAndLeaked(s);
    var n := PartedAt(begun, s, resumes);
    g, next := SectionFed(f, s, resumes), Flatten(s.parts)[n..];
    q := Ended(p.(channels := p.channels && ToldApart(begun, s, resumes)), PiecesFrom(begun, sections, rest)[0]);
    EndedFields(p.(channels := p.channels && ToldApart(begun, s, resumes)), PiecesFrom(begun, sections, rest)[0]);
    assert next == s.Leaked()[n - s.split..];
    InterruptedFrom(s.Leaked(), n - s.split, sections[1..], rest, d);
    FeedSectionEntries(read, f, s, FileEntries(sections[1..], rest));
    FirstEntries(sections, rest);
  }

  /** A whole file is fed as its pieces; its channels too, as long as every leak so far
      could be told apart. */
  lemma {:induction false} FeedFile(read: Reader, f: Feeding, p: Phase, begun: seq<Stamp>,
                                    sections: seq<Section>, rest: seq<Part>, d: nat)
    requires AllValid(sections) && AtRun(read, f, p, begun) && p.pending == None
             && Interrupted(begun, sections, rest, d)
    requires d <= STEP_GAP_NS && TruthfulFile(read, sections, rest)
    requires Total(p.done) + Total(PiecesFrom(begun, sections, rest)) <= U64_MAX
    ensures var n, pieces := |sections|, PiecesFrom(begun, sections, rest);
            var q := Phase(p.done + Nonempty(pieces[..n]), p.steps + n, None, p.channels
                && AllToldApart(begun, sections, rest));
            AtRun(read, FeedAll(IndexesOf(read), f, FileEntries(sections, rest)), q, pieces[n])
    decreases |sections|
  {
    hide *;
    var n, pieces := |sections|, PiecesFrom(begun, sections, rest);
    if n == 0 {
      NoSections(f, begun, sections, rest);
      LastRun(begun, sections, rest, d);
      TruthfulRest(read, sections, rest);
      FeedRest(read, f, p, begun, rest, d);
      NonemptyOfNone(pieces[..0]);
      assert p.done + [] == p.done;
      assert p == Phase(p.done + Nonempty(pieces[..0]), p.steps + 0, None, p.channels
          && AllToldApart(begun, sections, rest));
    } else {
      var s, resumes := sections[0], FirstLogTime(FileEntries(sections[1..], rest));
      var g, q, next := FirstSection(read, f, p, begun, sections, rest, d);
      FeedFile(read, g, q, next, sections[1..], rest, d);
      MoreSections(f, begun, sections, rest);
      EndedFields(p.(channels := p.channels && ToldApart(begun, s, resumes)), pieces[0]);
      FirstNonempty(p.done, pieces, n);
      var last := pieces[1..];
      assert |last| == n && last[n - 1] == pieces[n];
    }
  }

  lemma NonemptyOfNone(pieces: seq<seq<Stamp>>)
    requires |pieces| == 0
    ensures Nonempty(pieces) == []
  {
  }

  lemma FirstNonempty(done: seq<seq<Stamp>>, pieces: seq<seq<Stamp>>, n: nat)
    requires 0 < n < |pieces|
    ensures Add(done, pieces[0]) + Nonempty(pieces[1..][..n - 1]) == done + Nonempty(pieces[..n])
  {
    var first := pieces[..n];
    assert first[0] == pieces[0] && first[1..] == pieces[1..][..n - 1];
    if |pieces[0]| == 0 {
      assert [] + Nonempty(first[1..]) == Nonempty(first[1..]);
    } else {
      Regroup(done, [pieces[0]], Nonempty(first[1..]));
    }
  }

  /** Every record is fed at its leak if and only if every leak can be seen. */
  lemma {:induction false} SplitRightIff(read: Reader, f: Feeding, p: Phase, begun: seq<Stamp>,
                                         sections: seq<Section>, rest: seq<Part>, d: nat)
    requires AllValid(sections) && AtRun(read, f, p, begun) && p.pending == None
             && Interrupted(begun, sections, rest, d)
    requires d <= STEP_GAP_NS && TruthfulFile(read, sections, rest)
    requires Total(p.done) + Total(PiecesFrom(begun, sections, rest)) <= U64_MAX
    ensures SplitRight(f, sections, rest) <==> AllLeaksSeen(begun, sections, rest)
    decreases |sections|
  {
    hide *;
    if |sections| == 0 {
      NoSections(f, begun, sections, rest);
    } else {
      var s, resumes := sections[0], FirstLogTime(FileEntries(sections[1..], rest));
      OtherSections(read, begun, sections, rest, d);
      RecordAtLeak(read, f, p, begun, s, resumes, d);
      MoreSections(f, begun, sections, rest);
      PartedIs(begun, s, resumes);
      var g, q, next := FirstSection(read, f, p, begun, sections, rest, d);
      if LeakSeen(begun, s, resumes) {
        SplitRightIff(read, g, q, next, sections[1..], rest, d);
      }
    }
  }

  // ---------------------------------------------------------------- the outcome

  lemma StartAtRun(read: Reader, authoritative: bool)
    ensures AtRun(read, Feed.Start(authoritative), Phase([], 0, None, true), [])
  {
    hide Recorded;
    NothingRecorded(read, Feed.Start(authoritative));
  }

  lemma FinishAtRun(s: State, p: Phase, run: seq<Stamp>)
    requires OnRun(s, p, run) && p.pending == None && Total(p.done) + PieceLength(run) <= U64_MAX
    ensures Finish(s) == Report(Total(p.done) + PieceLength(run), p.steps)
    ensures Finished(s).merged == [] && Finished(s).abandoned == []
  {
    hide Total;
    if |run| > 0 {
      HullCovers(run);
    }
  }

  /** What every such file is reported as: the lengths of its pieces together, a leak that
      can be told apart beginning a piece and any other being measured with its run as far
      as it is fed ahead of the record, and one step per record. */
  lemma WhatIsReported(read: Reader, authoritative: bool, sections: seq<Section>, rest: seq<Part>, d: nat)
    requires AllValid(sections) && TruthfulFile(read, sections, rest) && Interrupted([], sections, rest, d)
             && d <= STEP_GAP_NS
    requires Total(PiecesFrom([], sections, rest)) <= U64_MAX
    ensures var f := FeedAll(IndexesOf(read), Feed.Start(authoritative), FileEntries(sections, rest));
            Finish(f.Timeline()) == Report(Total(PiecesFrom([], sections, rest)), |sections|)
  {
    hide FeedAll, FileEntries, PiecesFrom, Recorded, OnRun, PieceLength, Each, Nonempty, Finish;
    var n, pieces := |sections|, PiecesFrom([], sections, rest);
    StartAtRun(read, authoritative);
    FeedFile(read, Feed.Start(authoritative), Phase([], 0, None, true), [], sections, rest, d);
    assert [] + Nonempty(pieces[..n]) == Nonempty(pieces[..n]);
    NoLength([]);
    SumOfAll(PieceLength, pieces);
    KeptTotal(Nonempty(pieces[..n]), pieces[n]);
    FinishAtRun(FeedAll(IndexesOf(read), Feed.Start(authoritative), FileEntries(sections, rest)).Timeline(),
                Phase(Nonempty(pieces[..n]), n, None, AllToldApart([], sections, rest)), pieces[n]);
  }

  lemma KeptTotal(done: seq<seq<Stamp>>, piece: seq<Stamp>)
    ensures Sum(Each(PieceLength, done + [piece])) == Total(done) + PieceLength(piece)
  {
    hide PieceLength;
    assert Each(PieceLength, done + [piece])[..|done|] == Each(PieceLength, done);
  }

  /** The lengths of runs from first to last message. */
  function RunLengths(runs: seq<seq<Stamp>>): seq<nat> {
    Each(RunLength, runs)
  }

  lemma {:induction false} RunsAreSteady(begun: seq<Stamp>, sections: seq<Section>, rest: seq<Part>, d: nat)
    requires AllValid(sections) && Interrupted(begun, sections, rest, d)
    ensures forall i :: 0 <= i < |RunsFrom(begun, sections, rest)| ==> SteadyRun(RunsFrom(begun, sections, rest)[i], d)
    decreases |sections|
  {
    hide SteadyRun, SteppedFrom, Flatten;
    if |sections| > 0 {
      RunsAreSteady(sections[0].Leaked(), sections[1..], rest, d);
    }
  }

  lemma RunsTotal(sections: seq<Section>, rest: seq<Part>, d: nat)
    requires AllValid(sections) && Interrupted([], sections, rest, d)
    ensures Total(RunsFrom([], sections, rest)) == Sum(RunLengths(RunsFrom([], sections, rest)))
  {
    hide SteadyRun, RunsFrom, PieceLength, RunLength, Interrupted;
    var runs := RunsFrom([], sections, rest);
    RunsAreSteady([], sections, rest, d);
    forall i | 0 <= i < |runs|
      ensures PieceLength(runs[i]) == RunLength(runs[i])
    {
      HullOfSteady(runs[i], d);
    }
    assert Each(PieceLength, runs) == Each(RunLength, runs);
  }

  /** The pieces measured are exactly the runs if and only if every leak can be seen or is
      far from its run. Then, however large the steps and in whichever direction, the file
      is reported to last as long as its runs do together, with one step per record, and
      each channel to span the sum of its extents in the runs, whichever of its data is
      read and whichever stays compressed. */
  lemma StepSizesDoNotMatter(read: Reader, authoritative: bool, sections: seq<Section>, rest: seq<Part>, d: nat,
                             order: seq<(nat, nat)>, pushes: seq<ChannelItem>)
    requires AllValid(sections) && TruthfulFile(read, sections, rest) && Interrupted([], sections, rest, d)
             && d <= STEP_GAP_NS
    requires var runs := RunsFrom([], sections, rest);
             Sum(RunLengths(runs)) <= U64_MAX && TimesFit(runs)
    requires RecordedAll(IndexesOf(read),
             FeedAll(IndexesOf(read), Feed.Start(authoritative), FileEntries(sections, rest)), order, pushes)
    ensures PiecesFrom([], sections, rest) == RunsFrom([], sections, rest) <==> AllToldApart([], sections, rest)
    ensures AllToldApart([], sections, rest) ==>
              var f := FeedAll(IndexesOf(read), Feed.Start(authoritative), FileEntries(sections, rest));
              var runs := RunsFrom([], sections, rest);
              var finished := Finished(f.Timeline());
              && Finish(f.Timeline()) == Report(Sum(RunLengths(runs)), |sections|)
              && forall channel: nat ::
                   ExtentOf(pushes, finished.merged, finished.abandoned, channel)
                     == ChannelExtent(Sum(RunHullLengths(runs, channel)), Sum(RunPresence(runs, channel)))
  {
    hide *;
    PiecesAreRuns(read, [], sections, rest, d);
    RunsTotal(sections, rest, d);
    if AllToldApart([], sections, rest) {
      WhatIsReported(read, authoritative, sections, rest, d);
      forall channel: nat
        ensures var finished := Finished(FeedAll(IndexesOf(read), Feed.Start(authoritative),
                FileEntries(sections, rest)).Timeline());
                var runs := RunsFrom([], sections, rest);
                ExtentOf(pushes, finished.merged, finished.abandoned, channel)
                  == ChannelExtent(Sum(RunHullLengths(runs, channel)), Sum(RunPresence(runs, channel)))
      {
        ChannelsInRuns(read, authoritative, sections, rest, d, order, pushes, channel);
      }
    }
  }

  lemma ChannelsInRuns(read: Reader, authoritative: bool, sections: seq<Section>, rest: seq<Part>, d: nat,
                       order: seq<(nat, nat)>, pushes: seq<ChannelItem>, channel: nat)
    requires AllValid(sections) && TruthfulFile(read, sections, rest) && Interrupted([], sections, rest, d)
             && d <= STEP_GAP_NS
    requires var runs := RunsFrom([], sections, rest);
             Total(runs) <= U64_MAX && TimesFit(runs) && PiecesFrom([], sections, rest) == runs
    requires AllToldApart([], sections, rest)
    requires RecordedAll(IndexesOf(read),
             FeedAll(IndexesOf(read), Feed.Start(authoritative), FileEntries(sections, rest)), order, pushes)
    ensures var finished := Finished(FeedAll(IndexesOf(read), Feed.Start(authoritative),
            FileEntries(sections, rest)).Timeline());
            var runs := RunsFrom([], sections, rest);
            ExtentOf(pushes, finished.merged, finished.abandoned, channel)
              == ChannelExtent(Sum(RunHullLengths(runs, channel)), Sum(RunPresence(runs, channel)))
  {
    hide *;
    var f := FeedAll(IndexesOf(read), Feed.Start(authoritative), FileEntries(sections, rest));
    var n, runs := |sections|, RunsFrom([], sections, rest);
    StartAtRun(read, authoritative);
    NoTotal();
    FeedFile(read, Feed.Start(authoritative), Phase([], 0, None, true), [], sections, rest, d);
    var done := Nonempty(runs[..n]);
    var q := Phase([] + done, 0 + n, None, true && AllToldApart([], sections, rest));
    assert q.done == done;
    AtRunParts(read, f, q, runs[n]);
    NoLength([]);
    SumOfAll(PieceLength, runs);
    KeptTotal(done, runs[n]);
    TotalIs(runs);
    FinishAtRun(f.Timeline(), q, runs[n]);
    var all := done + [runs[n]];
    assert all[..|all| - 1] == done;
    RecordedIsRuns(read, f, all, order, pushes);
    RecordedForward(read, f, all, order, pushes);
    KeptFit(runs, n);
    ExtentOfRuns(pushes, all, channel);
    KeptExtents(runs, n, channel);
  }

  lemma NoTotal()
    ensures Total([]) == 0
  {
  }

  lemma TotalIs(pieces: seq<seq<Stamp>>)
    ensures Total(pieces) == Sum(Each(PieceLength, pieces))
  {
  }

  lemma {:induction false} NonemptyMember(pieces: seq<seq<Stamp>>)
    ensures forall piece <- Nonempty(pieces) :: piece in pieces
  {
    if |pieces| > 0 {
      NonemptyMember(pieces[1..]);
    }
  }

  lemma KeptFit(runs: seq<seq<Stamp>>, n: nat)
    requires TimesFit(runs) && n < |runs|
    ensures TimesFit(Nonempty(runs[..n]) + [runs[n]])
  {
    var all: seq<seq<Stamp>> := Nonempty(runs[..n]) + [runs[n]];
    NonemptyMember(runs[..n]);
    forall k: nat, i: nat | k < |all| && i < |all[k]|
      ensures InU64(all[k][i].0)
    {
      if k < |all| - 1 {
        assert all[k] in Nonempty(runs[..n]);
        assert all[k] in runs[..n];
      }
      assert all[k] in runs;
      var j :| 0 <= j < |runs| && runs[j] == all[k];
      assert InU64(runs[j][i].0);
    }
  }

  lemma KeptExtents(runs: seq<seq<Stamp>>, n: nat, channel: nat)
    requires |runs| == n + 1
    ensures var all := Nonempty(runs[..n]) + [runs[n]];
            && Sum(RunHullLengths(all, channel)) == Sum(RunHullLengths(runs, channel))
            && Sum(RunPresence(all, channel)) == Sum(RunPresence(runs, channel))
  {
    hide RunHull;
    var all := Nonempty(runs[..n]) + [runs[n]];
    var length := (run: seq<Stamp>) => LenOption(RunHull(run, channel));
    var present := (run: seq<Stamp>) => if RunHull(run, channel).Some? then 1 else 0;
    NoHullOfNone(channel);
    SumOfAll(length, runs);
    SumOfAll(present, runs);
    assert RunHullLengths(all, channel) == Each(length, all) && RunHullLengths(runs, channel) == Each(length, runs);
    assert RunPresence(all, channel) == Each(present, all) && RunPresence(runs, channel) == Each(present, runs);
  }

  lemma NoHullOfNone(channel: nat)
    ensures RunHull([], channel) == None
  {
  }
}
