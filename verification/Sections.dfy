/** Recordings interrupted by clock-step records: their entries, the runs of messages on
    one time base each, and what the entries tell of messages written too early. */
module Sections {
  import opened Spans
  import opened Leak
  import opened Feed
  import opened MessageIndexes

  /** Consecutive messages of the file: read, compressed in a chunk with its
      message indexes, or none in a chunk holding only other records. */
  datatype Part =
    | Read(times: seq<Stamp>)
    | Packed(chunk: ChunkIndex, messages: seq<Placing>)
    | Bare(chunk: ChunkIndex)
  {
    function Data(): seq<Stamp> {
      match this
      case Read(times) => times
      case Packed(_, messages) => Stamps(messages)
      case Bare(_) => []
    }

    function AsEntry(): Entry {
      match this
      case Read(times) => MessagesEntry(times)
      case _ => ChunkEntry(chunk)
    }
  }

  /** The entries up to and including one record. Of their messages, those from `split`
      on were taken after the step but written ahead of its record. */
  datatype Section = Section(parts: seq<Part>, split: nat, step: ClockStep)
  {
    predicate Valid() {
      split <= |Flatten(parts)|
    }

    function Own(): seq<Stamp>
      requires Valid()
    {
      Flatten(parts)[..split]
    }

    function Leaked(): seq<Stamp>
      requires Valid()
    {
      Flatten(parts)[split..]
    }

    /** All entries but the one just before the record. */
    function Body(): seq<Part> {
      if |parts| == 0 then [] else parts[..|parts| - 1]
    }

    /** The messages of the entry just before the record. */
    function LastData(): seq<Stamp> {
      if |parts| == 0 then [] else parts[|parts| - 1].Data()
    }
  }

  function Flatten(parts: seq<Part>): seq<Stamp> {
    if |parts| == 0 then [] else parts[0].Data() + Flatten(parts[1..])
  }

  function PartEntries(parts: seq<Part>): seq<Entry> {
    if |parts| == 0 then [] else [parts[0].AsEntry()] + PartEntries(parts[1..])
  }

  function SectionEntries(section: Section): seq<Entry> {
    PartEntries(section.parts) + [StepEntry(section.step)]
  }

  /** The file: its sections, then the entries after the last record. */
  function FileEntries(sections: seq<Section>, rest: seq<Part>): seq<Entry> {
    if |sections| == 0 then PartEntries(rest)
    else SectionEntries(sections[0]) + FileEntries(sections[1..], rest)
  }

  predicate AllValid(sections: seq<Section>) {
    forall i :: 0 <= i < |sections| ==> sections[i].Valid()
  }

  /** The runs of messages on one time base each, the first continuing `begun`. */
  function RunsFrom(begun: seq<Stamp>, sections: seq<Section>, rest: seq<Part>): (runs: seq<seq<Stamp>>)
    requires AllValid(sections)
    ensures |runs| == |sections| + 1
    decreases |sections|
  {
    if |sections| == 0 then [begun + Flatten(rest)]
    else [begun + sections[0].Own()] + RunsFrom(sections[0].Leaked(), sections[1..], rest)
  }

  /** Each run never goes back and never advances by more than `d` at a time. */
  predicate SteadyRun(run: seq<Stamp>, d: nat) {
    forall i :: 0 < i < |run| ==> StampFollows(run, i, d)
  }

  predicate StampFollows(run: seq<Stamp>, i: nat, d: nat)
    requires 0 < i < |run|
  {
    0 <= run[i].0 - run[i - 1].0 <= d
  }

  /** What is assumed of the sections from one on: steady runs, of which any may be empty,
      and short leaks, each apart from its run by the recorded step. */
  predicate Interrupted(begun: seq<Stamp>, sections: seq<Section>, rest: seq<Part>, d: nat)
    requires AllValid(sections)
    decreases |sections|
  {
    if |sections| == 0 then SteadyRun(begun + Flatten(rest), d)
    else
      && SectionFits(begun, sections[0], d)
      && Interrupted(sections[0].Leaked(), sections[1..], rest, d)
  }

  predicate SectionFits(begun: seq<Stamp>, s: Section, d: nat)
    requires s.Valid()
  {
    var run, leaked := begun + s.Own(), s.Leaked();
    && SteadyRun(run, d) && SteadyRun(leaked, d) && Abs(s.step.size) > 2 * d
    && (|leaked| > 0 ==>
          && leaked[|leaked| - 1].0 - leaked[0].0 <= STEP_GAP_NS
          && (|run| > 0 ==> SteppedFrom(run[|run| - 1].0, leaked[0].0, s.step.size, d)))
  }

  // ---------------------------------------------------------------- where the record is put

  /** Whether a section's leak can be told from the entries: it follows a run, it lies in the
      entry just before the record, and the first log time heard of after the record is not
      closer to the time base before the step. */
  predicate LeakSeen(begun: seq<Stamp>, s: Section, resumes: Option<nat>)
    requires s.Valid()
  {
    |s.Leaked()| == 0
    || (&& |begun + s.Own()| > 0 && |Flatten(s.Body())| <= s.split
        && !Vetoed(s.Leaked()[|s.Leaked()| - 1].0, s.step.size, resumes))
  }

  /** Whether the leak starts so far from its run that this alone opens a segment. */
  predicate FarLeak(begun: seq<Stamp>, s: Section)
    requires s.Valid()
  {
    var run, leaked := begun + s.Own(), s.Leaked();
    |run| > 0 && |leaked| > 0 && FarFrom(run[|run| - 1].0, leaked[0].0)
  }

  predicate FarFrom(pre: int, post: int) {
    Abs(post - pre) > STEP_GAP_NS
  }

  predicate AllLeaksSeen(begun: seq<Stamp>, sections: seq<Section>, rest: seq<Part>)
    requires AllValid(sections)
    decreases |sections|
  {
    |sections| > 0 ==>
      && LeakSeen(begun, sections[0], FirstLogTime(FileEntries(sections[1..], rest)))
      && AllLeaksSeen(sections[0].Leaked(), sections[1..], rest)
  }

  /** Each leak can be seen or is far from its run. */
  predicate AllToldApart(begun: seq<Stamp>, sections: seq<Section>, rest: seq<Part>)
    requires AllValid(sections)
    decreases |sections|
  {
    |sections| > 0 ==>
      && (LeakSeen(begun, sections[0], FirstLogTime(FileEntries(sections[1..], rest))) || FarLeak(begun, sections[0]))
      && AllToldApart(sections[0].Leaked(), sections[1..], rest)
  }

  /** Whether a chunk spans so much that it is looked up and not taken as a whole. */
  predicate Straddles(chunk: ChunkIndex) {
    SaturatingSub(chunk.endTime, chunk.startTime) > STEP_GAP_NS
  }

  /** Where the data so far ends once the entries have been read: with the last message, or
      with the time range of the last chunk where that is taken as a whole. */
  function EndAfter(end: Option<int>, parts: seq<Part>): Option<int>
    decreases |parts|
  {
    if |parts| == 0 then end else EndAfter(PartEnd(end, parts[0]), parts[1..])
  }

  function PartEnd(end: Option<int>, part: Part): Option<int> {
    if part.Packed? && !Straddles(part.chunk) then Some(part.chunk.endTime)
    else if |part.Data()| > 0 then LastOf(part.Data())
    else end
  }

  /** How many of a section's messages the record comes after; `end` is where the data
      before the section ends. */
  function PlaceOf(end: Option<int>, s: Section, resumes: Option<nat>): nat {
    |Flatten(s.Body())| + SplitIndex(s.LastData(), s.step.size, EndAfter(end, s.Body()), resumes)
  }

  /** How many of a section's messages are measured along with those before it. */
  function PartedAt(begun: seq<Stamp>, s: Section, resumes: Option<nat>): (n: nat)
    requires s.Valid()
    ensures n <= |Flatten(s.parts)|
  {
    BodyAndLast(s);
    if FarLeak(begun, s) then s.split else PlaceOf(LastOf(begun), s, resumes)
  }

  /** The stretches of messages that are measured together, the first continuing `begun`. */
  function PiecesFrom(begun: seq<Stamp>, sections: seq<Section>, rest: seq<Part>): (pieces: seq<seq<Stamp>>)
    requires AllValid(sections)
    ensures |pieces| == |sections| + 1
    decreases |sections|
  {
    if |sections| == 0 then [begun + Flatten(rest)]
    else
      var s := sections[0];
      var n := PartedAt(begun, s, FirstLogTime(FileEntries(sections[1..], rest)));
      [begun + Flatten(s.parts)[..n]] + PiecesFrom(Flatten(s.parts)[n..], sections[1..], rest)
  }

  // ---------------------------------------------------------------- what is assumed of the entries

  /** The header gives the least and the greatest log time. */
  ghost predicate HeaderIs(chunk: ChunkIndex, messages: seq<Placing>) {
    && (forall i :: 0 <= i < |messages| ==> chunk.startTime <= messages[i].1 <= chunk.endTime)
    && (exists i :: 0 <= i < |messages| && messages[i].1 == chunk.startTime)
    && (exists i :: 0 <= i < |messages| && messages[i].1 == chunk.endTime)
  }

  ghost predicate TruthfulPart(read: Reader, part: Part) {
    match part
    case Read(_) => true
    case Packed(chunk, messages) =>
      && |messages| > 0 && HeaderIs(chunk, messages) && TruthfulIndexes(read, chunk, messages)
      && forall i, j :: 0 <= i < j < |messages| ==> messages[i].0 < messages[j].0
    case Bare(chunk) => NoMessages(chunk)
  }

  ghost predicate TruthfulParts(read: Reader, parts: seq<Part>) {
    forall i :: 0 <= i < |parts| ==> TruthfulPart(read, parts[i])
  }

  ghost predicate TruthfulFile(read: Reader, sections: seq<Section>, rest: seq<Part>) {
    && (forall i :: 0 <= i < |sections| ==> TruthfulParts(read, sections[i].parts))
    && TruthfulParts(read, rest)
  }

  // ---------------------------------------------------------------- how long runs last

  function RunLength(run: seq<Stamp>): nat {
    if |run| == 0 then 0 else Span(run[0].0, run[|run| - 1].0).Len()
  }

  /** From the least to the greatest log time. */
  function HullOf(piece: seq<Stamp>): Option<Span> {
    if |piece| == 0 then None
    else MergeOption(HullOf(piece[..|piece| - 1]), Some(Point(piece[|piece| - 1].0)))
  }

  function PieceLength(piece: seq<Stamp>): nat {
    LenOption(HullOf(piece))
  }

  /** A measure of each of some pieces. */
  function Each(measure: seq<Stamp> -> nat, pieces: seq<seq<Stamp>>): (r: seq<nat>)
    ensures |r| == |pieces|
    ensures forall i :: 0 <= i < |pieces| ==> r[i] == measure(pieces[i])
  {
    seq(|pieces|, i requires 0 <= i < |pieces| => measure(pieces[i]))
  }

  lemma {:induction false} HullConcat(a: seq<Stamp>, b: seq<Stamp>)
    ensures HullOf(a + b) == MergeOption(HullOf(a), HullOf(b))
  {
    if |b| == 0 {
      assert a + b == a;
    } else {
      var n := |b| - 1;
      assert (a + b)[..|a| + n] == a + b[..n];
      HullConcat(a, b[..n]);
    }
  }

  lemma {:induction false} HullCovers(piece: seq<Stamp>)
    requires |piece| > 0
    ensures HullOf(piece).Some?
    ensures var hull := HullOf(piece).value;
            && (forall i :: 0 <= i < |piece| ==> hull.start <= piece[i].0 <= hull.end)
            && (exists i :: 0 <= i < |piece| && piece[i].0 == hull.start)
            && (exists i :: 0 <= i < |piece| && piece[i].0 == hull.end)
  {
    var n := |piece| - 1;
    var most := piece[..n];
    assert forall i :: 0 <= i < n ==> piece[i] == most[i];
    if n > 0 {
      HullCovers(most);
      var i :| 0 <= i < n && most[i].0 == HullOf(most).value.start;
      var j :| 0 <= j < n && most[j].0 == HullOf(most).value.end;
      assert piece[i] == most[i] && piece[j] == most[j];
    } else {
      assert most == [];
    }
  }

  /** A run lasts from its first to its last message. */
  lemma HullOfSteady(run: seq<Stamp>, d: nat)
    requires SteadyRun(run, d)
    ensures HullOf(run) == if |run| == 0 then None else Some(Span(run[0].0, run[|run| - 1].0))
    ensures PieceLength(run) == RunLength(run)
  {
    if |run| > 0 {
      hide SteadyRun, HullOf;
      HullCovers(run);
      var hull := HullOf(run).value;
      var i :| 0 <= i < |run| && run[i].0 == hull.start;
      var j :| 0 <= j < |run| && run[j].0 == hull.end;
      RunOrder(run, d, 0, i);
      RunOrder(run, d, j, |run| - 1);
    }
  }

  /** A truthful header is the hull of the messages. */
  lemma HeaderIsHull(chunk: ChunkIndex, messages: seq<Placing>)
    requires HeaderIs(chunk, messages) && |messages| > 0
    ensures HullOf(Stamps(messages)) == Some(Span(chunk.startTime, chunk.endTime))
  {
    hide HullOf;
    HullCovers(Stamps(messages));
    var hull := HullOf(Stamps(messages)).value;
    var i :| 0 <= i < |messages| && messages[i].1 == chunk.startTime;
    var j :| 0 <= j < |messages| && messages[j].1 == chunk.endTime;
    assert Stamps(messages)[i].0 == chunk.startTime && Stamps(messages)[j].0 == chunk.endTime;
  }

  // ---------------------------------------------------------------- steady runs

  lemma {:induction false} RunOrder(run: seq<Stamp>, d: nat, i: nat, j: nat)
    requires SteadyRun(run, d) && i <= j < |run|
    ensures run[i].0 <= run[j].0
    decreases j - i
  {
    if i < j {
      assert StampFollows(run, j, d);
      RunOrder(run, d, i, j - 1);
    }
  }

  lemma Follow(run: seq<Stamp>, d: nat, i: nat)
    requires SteadyRun(run, d) && 0 < i < |run|
    ensures StampFollows(run, i, d)
  {
  }

  lemma SteadyPrefix(run: seq<Stamp>, d: nat, n: nat)
    requires SteadyRun(run, d) && n <= |run|
    ensures SteadyRun(run[..n], d)
  {
    forall i | 0 < i < n
      ensures StampFollows(run[..n], i, d)
    {
      assert StampFollows(run, i, d);
    }
  }

  lemma SteadySuffix(run: seq<Stamp>, d: nat, n: nat)
    requires SteadyRun(run, d) && n <= |run|
    ensures SteadyRun(run[n..], d)
  {
    forall i | 0 < i < |run| - n
      ensures StampFollows(run[n..], i, d)
    {
      assert StampFollows(run, n + i, d);
    }
  }

  lemma Continues(leaked: seq<Stamp>, more: seq<Stamp>, d: nat)
    requires |leaked| > 0 && SteadyRun(leaked + more, d)
    ensures SteadyRun(more, d) && (|more| > 0 ==> 0 <= more[0].0 - leaked[|leaked| - 1].0 <= d)
  {
    hide SteadyRun;
    var next := leaked + more;
    assert next[|leaked|..] == more;
    SteadySuffix(next, d, |leaked|);
    if |more| > 0 {
      Follow(next, d, |leaked|);
    }
  }

  /** In a steady run the header gives the first and the last log time. */
  lemma HeaderOfSteady(chunk: ChunkIndex, messages: seq<Placing>, d: nat)
    requires HeaderIs(chunk, messages) && |messages| > 0 && SteadyRun(Stamps(messages), d)
    ensures chunk.startTime == messages[0].1 && chunk.endTime == messages[|messages| - 1].1
  {
    hide SteadyRun;
    var i :| 0 <= i < |messages| && messages[i].1 == chunk.startTime;
    var j :| 0 <= j < |messages| && messages[j].1 == chunk.endTime;
    RunOrder(Stamps(messages), d, 0, i);
    RunOrder(Stamps(messages), d, j, |messages| - 1);
  }

  // ---------------------------------------------------------------- entries in a row

  lemma FlattenLast(parts: seq<Part>)
    requires |parts| > 0
    ensures var n := |parts| - 1;
            Flatten(parts) == Flatten(parts[..n]) + parts[n].Data()
                && PartEntries(parts) == PartEntries(parts[..n]) + [parts[n].AsEntry()]
  {
    hide *;
    var n := |parts| - 1;
    FlattenConcat(parts[..n], [parts[n]]);
    assert parts[..n] + [parts[n]] == parts;
    FlattenOne(parts[n]);
  }

  lemma FlattenOne(part: Part)
    ensures Flatten([part]) == part.Data() && PartEntries([part]) == [part.AsEntry()]
  {
  }

  lemma FlattenConcat(a: seq<Part>, b: seq<Part>)
    ensures Flatten(a + b) == Flatten(a) + Flatten(b) && PartEntries(a + b) == PartEntries(a) + PartEntries(b)
  {
    hide *;
    DataConcat(a, b);
    EntriesConcat(a, b);
  }

  lemma Regroup<T>(x: seq<T>, y: seq<T>, z: seq<T>)
    ensures x + (y + z) == x + y + z
  {
  }

  lemma {:induction false} DataConcat(a: seq<Part>, b: seq<Part>)
    ensures Flatten(a + b) == Flatten(a) + Flatten(b)
  {
    if |a| == 0 {
      assert a + b == b;
    } else {
      FirstData(a + b);
      FirstData(a);
      hide *;
      var first, more := a[0].Data(), a[1..];
      assert (a + b)[1..] == more + b;
      DataConcat(more, b);
      Regroup(first, Flatten(more), Flatten(b));
    }
  }

  lemma FirstData(parts: seq<Part>)
    requires |parts| > 0
    ensures Flatten(parts) == parts[0].Data() + Flatten(parts[1..])
    ensures PartEntries(parts) == [parts[0].AsEntry()] + PartEntries(parts[1..])
  {
  }

  lemma {:induction false} EntriesConcat(a: seq<Part>, b: seq<Part>)
    ensures PartEntries(a + b) == PartEntries(a) + PartEntries(b)
  {
    if |a| == 0 {
      assert a + b == b;
    } else {
      FirstData(a + b);
      FirstData(a);
      hide *;
      assert (a + b)[1..] == a[1..] + b;
      EntriesConcat(a[1..], b);
      Regroup([a[0].AsEntry()], PartEntries(a[1..]), PartEntries(b));
    }
  }

  lemma BodyAndLast(s: Section)
    ensures Flatten(s.parts) == Flatten(s.Body()) + s.LastData()
  {
    if |s.parts| > 0 {
      FlattenLast(s.parts);
    }
  }

  lemma SplitInSecond<T>(a: seq<T>, b: seq<T>, n: nat)
    requires |a| <= n <= |a + b|
    ensures (a + b)[..n] == a + b[..n - |a|] && (a + b)[n..] == b[n - |a|..] && b[..n - |a|] + b[n - |a|..] == b
  {
  }

  /** Where the leak lies in the entry just before the record, what that entry holds ahead of it. */
  lemma OwnInLast(begun: seq<Stamp>, s: Section) returns (own: seq<Stamp>)
    requires s.Valid() && |Flatten(s.Body())| <= s.split
    ensures own + s.Leaked() == s.LastData() && begun + s.Own() == begun + Flatten(s.Body()) + own
    ensures |Flatten(s.Body())| + |own| == s.split
  {
    hide Flatten, s.Body, s.LastData;
    var body, last := Flatten(s.Body()), s.LastData();
    BodyAndLast(s);
    SplitInSecond(body, last, s.split);
    own := last[..s.split - |body|];
    Regroup(begun, body, own);
  }

  lemma FirstEntries(sections: seq<Section>, rest: seq<Part>)
    requires |sections| > 0
    ensures FileEntries(sections, rest) == SectionEntries(sections[0]) + FileEntries(sections[1..], rest)
  {
  }

  // ---------------------------------------------------------------- the split before a record

  /** Within the end of the run so far and the messages before a record, each
      difference is within one run but the one at the leak. */
  lemma PointsSteady(run: seq<Stamp>, times: seq<Stamp>, d: nat)
    requires SteadyRun(run + times, d)
    ensures Steady(Points(LastOf(run), times), d)
  {
    hide SteadyRun;
    var before := LastOf(run);
    var points := Points(before, times);
    forall i | 0 < i < |points|
      ensures Follows(points, i, d)
    {
      var k := i - Sentinel(before) + |run|;
      Follow(run + times, d, k);
    }
  }

  lemma StampsSteady(run: seq<Stamp>, d: nat)
    requires SteadyRun(run, d)
    ensures Steady(Points(None, run), d)
  {
    assert [] + run == run;
    PointsSteady([], run, d);
  }

  lemma PointsConcat(before: Option<int>, own: seq<Stamp>, leaked: seq<Stamp>)
    ensures Points(before, own + leaked) == Points(before, own) + Points(None, leaked)
  {
  }

  /** The end of the data so far. */
  function LastOf(run: seq<Stamp>): Option<int> {
    if |run| == 0 then None else Some(run[|run| - 1].0)
  }

  /** The messages split off before the record are exactly the leak, if and only if
      nothing leaked or what follows the record does not speak against it. */
  lemma SplitAtLeak(run: seq<Stamp>, own: seq<Stamp>, leaked: seq<Stamp>, step: int, resumes: Option<nat>, d: nat)
    requires |run + own| > 0 && SteadyRun(run + own, d) && SteadyRun(leaked, d)
    requires d <= STEP_GAP_NS && Abs(step) > 2 * d
    requires |leaked| > 0 ==>
               && SteppedFrom((run + own)[|run + own| - 1].0, leaked[0].0, step, d)
               && leaked[|leaked| - 1].0 - leaked[0].0 <= STEP_GAP_NS
    ensures SplitIndex(own + leaked, step, LastOf(run), resumes) >= |own|
    ensures SplitIndex(own + leaked, step, LastOf(run), resumes) == |own|
            <==> |leaked| == 0 || !Vetoed(leaked[|leaked| - 1].0, step, resumes)
  {
    hide LeakSplit, SteadyRun, SteppedFrom, SplitRun, Vetoed, Steady;
    PointsSteady(run, own, d);
    if |leaked| == 0 {
      assert own + leaked == own;
      NoLeakNoSplit(own, step, LastOf(run), resumes, d);
    } else {
      LeakPoints(run, own, leaked, step, d);
      assert (own + leaked)[|own + leaked| - 1] == leaked[|leaked| - 1];
      LeakRecovered(own + leaked, step, LastOf(run), resumes, d, Sentinel(LastOf(run)) + |own|);
    }
  }

  lemma PointsEnd(run: seq<Stamp>, own: seq<Stamp>)
    requires |run + own| > 0
    ensures var points := Points(LastOf(run), own);
            |points| > 0 && points[|points| - 1] == (run + own)[|run + own| - 1].0
  {
  }

  /** Where two sequences of points meet. */
  lemma Joined(points: seq<int>, a: seq<int>, b: seq<int>)
    requires points == a + b && |a| > 0 && |b| > 0
    ensures points[..|a|] == a && points[|a|..] == b
    ensures points[|a| - 1] == a[|a| - 1] && points[|a|] == b[0] && points[|points| - 1] == b[|b| - 1]
  {
  }

  lemma LeakPoints(run: seq<Stamp>, own: seq<Stamp>, leaked: seq<Stamp>, step: int, d: nat)
    requires |run + own| > 0 && SteadyRun(run + own, d) && SteadyRun(leaked, d) && |leaked| > 0
    requires SteppedFrom((run + own)[|run + own| - 1].0, leaked[0].0, step, d)
    requires leaked[|leaked| - 1].0 - leaked[0].0 <= STEP_GAP_NS
    ensures SplitRun(Points(LastOf(run), own + leaked), step, d, Sentinel(LastOf(run)) + |own|)
  {
    hide SteadyRun, Steady, SteppedFrom, LastOf;
    var before := LastOf(run);
    PointsSteady(run, own, d);
    StampsSteady(leaked, d);
    PointsConcat(before, own, leaked);
    PointsEnd(run, own);
    Joined(Points(before, own + leaked), Points(before, own), Points(None, leaked));
  }

  /** Where a section's own messages and its leak are split: at the leak if and only if the
      leak can be seen, and otherwise further on. */
  lemma PlaceAtLeak(read: Reader, begun: seq<Stamp>, s: Section, resumes: Option<nat>, d: nat)
    requires s.Valid() && TruthfulParts(read, s.parts) && SectionFits(begun, s, d) && d <= STEP_GAP_NS
    ensures PlaceOf(LastOf(begun), s, resumes) >= s.split
    ensures PlaceOf(LastOf(begun), s, resumes) == s.split <==> LeakSeen(begun, s, resumes)
  {
    hide *;
    FitsFacts(begun, s, d);
    if |Flatten(s.Body())| <= s.split {
      var own := OwnInLast(begun, s);
      var before := begun + Flatten(s.Body());
      BodyIsSteady(read, begun, s, own, d);
      EndOfSteady(read, begun, s.Body(), d);
      if |before + own| > 0 {
        SplitAtLeak(before, own, s.Leaked(), s.step.size, resumes, d);
      } else {
        assert begun == [] && before == [] && own == [] && own + s.Leaked() == s.Leaked();
        NothingBefore(begun);
        SplitOfNothing(s.Leaked(), s.step.size, resumes, d);
      }
      PlaceInLast(begun, s, resumes, own);
    } else {
      PlaceInBody(begun, s, resumes);
    }
  }

  lemma NothingBefore(run: seq<Stamp>)
    requires run == []
    ensures LastOf(run) == None
  {
  }

  lemma FitsFacts(begun: seq<Stamp>, s: Section, d: nat)
    requires s.Valid() && SectionFits(begun, s, d)
    ensures var run, leaked := begun + s.Own(), s.Leaked();
            && SteadyRun(run, d) && SteadyRun(leaked, d) && Abs(s.step.size) > 2 * d
            && (|leaked| > 0 ==>
                  && leaked[|leaked| - 1].0 - leaked[0].0 <= STEP_GAP_NS
                  && (|run| > 0 ==> SteppedFrom(run[|run| - 1].0, leaked[0].0, s.step.size, d)))
  {
    hide SteadyRun, SteppedFrom;
  }

  lemma BodyIsSteady(read: Reader, begun: seq<Stamp>, s: Section, own: seq<Stamp>, d: nat)
    requires s.Valid() && TruthfulParts(read, s.parts)
    requires begun + s.Own() == begun + Flatten(s.Body()) + own && SteadyRun(begun + s.Own(), d)
    ensures SteadyRun(begun + Flatten(s.Body()), d) && TruthfulParts(read, s.Body())
  {
    hide SteadyRun, TruthfulPart, Flatten;
    var before := begun + Flatten(s.Body());
    assert (before + own)[..|before|] == before;
    SteadyPrefix(begun + s.Own(), d, |before|);
  }

  /** Messages with nothing before them are never split. */
  lemma SplitOfNothing(times: seq<Stamp>, step: int, resumes: Option<nat>, d: nat)
    requires SteadyRun(times, d) && Abs(step) > 2 * d
    ensures SplitIndex(times, step, None, resumes) == |times|
  {
    hide LeakSplit, SteadyRun, Steady;
    StampsSteady(times, d);
    NoLeakNoSplit(times, step, None, resumes, d);
  }

  lemma PlaceInLast(begun: seq<Stamp>, s: Section, resumes: Option<nat>, own: seq<Stamp>)
    requires s.Valid() && |Flatten(s.Body())| + |own| == s.split && begun + s.Own() == begun + Flatten(s.Body()) + own
    requires EndAfter(LastOf(begun), s.Body()) == LastOf(begun + Flatten(s.Body())) && s.LastData() == own + s.Leaked()
    requires var before := begun + Flatten(s.Body());
             var at := SplitIndex(own + s.Leaked(), s.step.size, LastOf(before), resumes);
             if |before + own| > 0 then
               && at >= |own|
               && (at == |own| <==> |s.Leaked()| == 0 || !Vetoed(s.Leaked()[|s.Leaked()| - 1].0, s.step.size, resumes))
             else at == |s.Leaked()|
    ensures PlaceOf(LastOf(begun), s, resumes) >= s.split
    ensures PlaceOf(LastOf(begun), s, resumes) == s.split <==> LeakSeen(begun, s, resumes)
  {
    hide Vetoed, EndAfter, LastOf, SplitIndex, LeakSplit, Flatten;
  }

  lemma PlaceInBody(begun: seq<Stamp>, s: Section, resumes: Option<nat>)
    requires s.Valid() && |Flatten(s.Body())| > s.split
    ensures PlaceOf(LastOf(begun), s, resumes) > s.split && !LeakSeen(begun, s, resumes)
  {
    hide Vetoed, EndAfter, LastOf, SplitIndex, LeakSplit, Flatten;
    BodyAndLast(s);
  }

  /** After a steady run the data ends with its last message, however it is taken. */
  lemma {:induction false} EndOfSteady(read: Reader, run: seq<Stamp>, parts: seq<Part>, d: nat)
    requires TruthfulParts(read, parts) && SteadyRun(run + Flatten(parts), d)
    ensures EndAfter(LastOf(run), parts) == LastOf(run + Flatten(parts))
    decreases |parts|
  {
    hide SteadyRun, TruthfulPart, LastOf, PartEnd;
    if |parts| == 0 {
      assert run + Flatten(parts) == run;
    } else {
      var longer := run + parts[0].Data();
      assert run + Flatten(parts) == longer + Flatten(parts[1..]);
      assert (run + Flatten(parts))[..|longer|] == longer;
      SteadyPrefix(run + Flatten(parts), d, |longer|);
      EndOfPart(read, run, parts[0], d);
      EndOfSteady(read, longer, parts[1..], d);
    }
  }

  lemma EndOfPart(read: Reader, run: seq<Stamp>, part: Part, d: nat)
    requires TruthfulPart(read, part) && SteadyRun(run + part.Data(), d)
    ensures PartEnd(LastOf(run), part) == LastOf(run + part.Data())
  {
    hide SteadyRun, TruthfulIndexes, HeaderIs;
    var whole := run + part.Data();
    assert whole[|run|..] == part.Data();
    SteadySuffix(whole, d, |run|);
    if part.Packed? {
      HeaderOfSteady(part.chunk, part.messages, d);
    }
  }

  lemma VetoedPlace(times: seq<Stamp>, step: int, before: Option<int>, resumes: Option<nat>)
    requires |times| > 0 && Vetoed(times[|times| - 1].0, step, resumes)
    ensures SplitIndex(times, step, before, resumes) == |times|
  {
  }

  /** A leak that cannot be seen comes wholly ahead of the record, unless it begins in a
      chunk that is taken as a whole and ends, by its header, with an earlier message. */
  lemma UnseenIsAhead(read: Reader, begun: seq<Stamp>, s: Section, resumes: Option<nat>, d: nat)
    requires s.Valid() && TruthfulParts(read, s.parts) && SectionFits(begun, s, d) && !LeakSeen(begun, s, resumes)
    requires |Flatten(s.Body())| > s.split ==> EndAfter(LastOf(begun), s.Body()) == LastOf(Flatten(s.Body()))
    ensures PlaceOf(LastOf(begun), s, resumes) == |Flatten(s.parts)|
  {
    hide LeakSplit, SteadyRun, SteppedFrom, Vetoed, EndAfter, Flatten, SplitIndex, TruthfulPart, Steady;
    BodyAndLast(s);
    if |Flatten(s.Body())| > s.split {
      UnseenEarly(begun, s, resumes, d);
    } else if |begun + s.Own()| > 0 {
      assert s.LastData()[|s.LastData()| - 1] == s.Leaked()[|s.Leaked()| - 1];
      VetoedPlace(s.LastData(), s.step.size, EndAfter(LastOf(begun), s.Body()), resumes);
    } else {
      UnseenAlone(read, begun, s, resumes, d);
    }
  }

  /** A leak that begins before the last entry. */
  lemma UnseenEarly(begun: seq<Stamp>, s: Section, resumes: Option<nat>, d: nat)
    requires s.Valid() && SectionFits(begun, s, d) && |Flatten(s.Body())| > s.split
    requires EndAfter(LastOf(begun), s.Body()) == LastOf(Flatten(s.Body()))
    ensures PlaceOf(LastOf(begun), s, resumes) == |Flatten(s.parts)|
  {
    hide LeakSplit, SteadyRun, SteppedFrom, Vetoed, EndAfter, Flatten, SplitIndex, Steady, Points;
    BodyAndLast(s);
    var early := Flatten(s.Body())[s.split..];
    assert s.Leaked() == early + s.LastData();
    assert LastOf(early) == LastOf(Flatten(s.Body()));
    PointsSteady(early, s.LastData(), d);
    NoLeakNoSplit(s.LastData(), s.step.size, LastOf(early), resumes, d);
    SplitWhole(s.LastData(), s.step.size, LastOf(early), resumes);
  }

  /** A leak with nothing of its run before it. */
  lemma UnseenAlone(read: Reader, begun: seq<Stamp>, s: Section, resumes: Option<nat>, d: nat)
    requires s.Valid() && TruthfulParts(read, s.parts) && SectionFits(begun, s, d)
    requires |Flatten(s.Body())| <= s.split && |begun + s.Own()| == 0
    ensures PlaceOf(LastOf(begun), s, resumes) == |Flatten(s.parts)|
  {
    hide LeakSplit, SteadyRun, SteppedFrom, Vetoed, EndAfter, Flatten, SplitIndex, TruthfulPart, Steady;
    BodyAndLast(s);
    assert Flatten(s.Body()) == [] && s.LastData() == s.Leaked() && begun + Flatten(s.Body()) == [];
    EndOfSteady(read, begun, s.Body(), d);
    NothingBefore(begun + Flatten(s.Body()));
    SplitOfNothing(s.LastData(), s.step.size, resumes, d);
  }

  lemma SplitWhole(times: seq<Stamp>, step: int, before: Option<int>, resumes: Option<nat>)
    requires LeakSplit(times, step, before, resumes) == None
    ensures SplitIndex(times, step, before, resumes) == |times|
  {
  }

  // ---------------------------------------------------------------- when a leak can be seen

  /** A chunk with messages has an index. */
  lemma PackedHasIndex(read: Reader, part: Part)
    requires part.Packed? && TruthfulPart(read, part)
    ensures part.chunk.indexOffsets != map[]
    ensures MessageTimes(read, part.chunk) == Some(part.Data())
  {
    TimesAreMessages(read, part.chunk, part.messages);
    var c := part.messages[|part.messages| - 1].2;
    assert |Of(part.messages, c)| > 0;
    assert c in part.chunk.indexOffsets;
  }

  lemma FirstOfPart(read: Reader, part: Part, after: seq<Entry>, d: nat)
    requires TruthfulPart(read, part) && SteadyRun(part.Data(), d)
    ensures FirstLogTime([part.AsEntry()] + after)
            == if |part.Data()| > 0 then Some(part.Data()[0].0) else FirstLogTime(after)
  {
    hide SteadyRun, TruthfulIndexes, HeaderIs, MessageTimes;
    assert ([part.AsEntry()] + after)[1..] == after;
    if part.Packed? {
      HeaderOfSteady(part.chunk, part.messages, d);
      PackedHasIndex(read, part);
    }
  }

  /** Within a steady run the first log time heard of is the first message's. */
  lemma {:induction false} FirstOfParts(read: Reader, parts: seq<Part>, tail: seq<Entry>, d: nat)
    requires TruthfulParts(read, parts) && SteadyRun(Flatten(parts), d)
    ensures FirstLogTime(PartEntries(parts) + tail)
         == if |Flatten(parts)| > 0 then Some(Flatten(parts)[0].0) else FirstLogTime(tail)
  {
    hide SteadyRun, TruthfulPart, FirstLogTime;
    if |parts| == 0 {
      assert PartEntries(parts) + tail == tail;
    } else {
      var data, all := parts[0].Data(), Flatten(parts);
      assert PartEntries(parts) + tail == [parts[0].AsEntry()] + (PartEntries(parts[1..]) + tail);
      assert all[..|data|] == data && all[|data|..] == Flatten(parts[1..]);
      SteadyPrefix(all, d, |data|);
      SteadySuffix(all, d, |data|);
      FirstOfPart(read, parts[0], PartEntries(parts[1..]) + tail, d);
      FirstOfParts(read, parts[1..], tail, d);
    }
  }

  lemma NoEntries()
    ensures FirstLogTime([]) == None
  {
  }

  lemma TruthfulRest(read: Reader, sections: seq<Section>, rest: seq<Part>)
    requires TruthfulFile(read, sections, rest)
    ensures TruthfulParts(read, rest)
  {
    hide TruthfulParts;
  }

  lemma LastRun(begun: seq<Stamp>, sections: seq<Section>, rest: seq<Part>, d: nat)
    requires |sections| == 0 && AllValid(sections) && Interrupted(begun, sections, rest, d)
    ensures RunsFrom(begun, sections, rest) == PiecesFrom(begun, sections, rest) == [begun + Flatten(rest)]
    ensures SteadyRun(begun + Flatten(rest), d)
  {
    hide SteadyRun, Flatten;
  }

  /** A section whose first messages fill a whole entry, none of them leaked, is first
      heard of by its own first log time. */
  lemma HeardFirst(read: Reader, s: Section, m: nat, after: seq<Entry>, d: nat)
    requires s.Valid() && TruthfulParts(read, s.parts) && SteadyRun(s.Own(), d)
    requires m <= |s.parts| && 0 < |Flatten(s.parts[..m])| <= s.split
    ensures FirstLogTime(SectionEntries(s) + after) == Some(s.Own()[0].0)
  {
    hide *;
    var first, more := s.parts[..m], s.parts[m..];
    SplitParts(s, m);
    SteadyPrefix(s.Own(), d, |Flatten(first)|);
    var tail := PartEntries(more) + [StepEntry(s.step)] + after;
    EntriesApart(s, m, after);
    TruthfulPrefix(read, s.parts, m);
    FirstOfParts(read, first, tail, d);
  }

  lemma SplitParts(s: Section, m: nat)
    requires s.Valid() && m <= |s.parts| && 0 < |Flatten(s.parts[..m])| <= s.split
    ensures |Flatten(s.parts[..m])| <= |s.Own()| && Flatten(s.parts[..m]) == s.Own()[..|Flatten(s.parts[..m])|]
  {
    hide Flatten;
    FlattenConcat(s.parts[..m], s.parts[m..]);
    assert s.parts[..m] + s.parts[m..] == s.parts;
  }

  lemma EntriesApart(s: Section, m: nat, after: seq<Entry>)
    requires m <= |s.parts|
    ensures SectionEntries(s) + after
            == PartEntries(s.parts[..m]) + (PartEntries(s.parts[m..]) + [StepEntry(s.step)] + after)
  {
    hide Flatten, PartEntries;
    FlattenConcat(s.parts[..m], s.parts[m..]);
    assert s.parts[..m] + s.parts[m..] == s.parts;
  }

  lemma TruthfulPrefix(read: Reader, parts: seq<Part>, m: nat)
    requires m <= |parts| && TruthfulParts(read, parts)
    ensures TruthfulParts(read, parts[..m])
  {
    hide TruthfulPart;
  }

  /** A leak in the entry just before its record can be seen if nothing follows the record
      at all, or the next run's own messages fill a whole entry before the next leak. */
  lemma SeenWhenContinued(read: Reader, begun: seq<Stamp>, sections: seq<Section>, rest: seq<Part>,
                          d: nat, m: nat)
    requires |sections| > 0 && AllValid(sections) && Interrupted(begun, sections, rest, d)
             && TruthfulFile(read, sections, rest)
    requires |begun + sections[0].Own()| > 0 && |Flatten(sections[0].Body())| <= sections[0].split
    requires |sections| > 1 ==>
               m <= |sections[1].parts| && 0 < |Flatten(sections[1].parts[..m])| <= sections[1].split
    ensures LeakSeen(begun, sections[0], FirstLogTime(FileEntries(sections[1..], rest)))
  {
    hide *;
    OtherSections(read, begun, sections, rest, d);
    var s, resumes := sections[0], FirstLogTime(FileEntries(sections[1..], rest));
    if |s.Leaked()| > 0 {
      FitsFacts(begun, s, d);
      NextContinues(read, s.Leaked(), sections[1..], rest, d, m);
      ContinuingIsNotVetoed(s.Leaked()[|s.Leaked()| - 1].0, s.step.size, resumes, d);
    }
    SeenIs(begun, s, resumes);
  }

  lemma SeenIs(begun: seq<Stamp>, s: Section, resumes: Option<nat>)
    requires s.Valid() && |begun + s.Own()| > 0 && |Flatten(s.Body())| <= s.split
    requires |s.Leaked()| > 0 ==> !Vetoed(s.Leaked()[|s.Leaked()| - 1].0, s.step.size, resumes)
    ensures LeakSeen(begun, s, resumes)
  {
    hide Vetoed, Flatten;
  }

  lemma OtherSections(read: Reader, begun: seq<Stamp>, sections: seq<Section>, rest: seq<Part>,
                      d: nat)
    requires |sections| > 0 && AllValid(sections) && Interrupted(begun, sections, rest, d)
             && TruthfulFile(read, sections, rest)
    ensures sections[0].Valid() && AllValid(sections[1..]) && SectionFits(begun, sections[0], d)
    ensures Interrupted(sections[0].Leaked(), sections[1..], rest, d) && TruthfulFile(read, sections[1..], rest)
    ensures TruthfulParts(read, sections[0].parts)
  {
    hide SectionFits, TruthfulParts;
  }

  /** What follows a record is first heard of where its run continues. */
  lemma NextContinues(read: Reader, leaked: seq<Stamp>, sections: seq<Section>, rest: seq<Part>,
                      d: nat, m: nat)
    requires AllValid(sections) && Interrupted(leaked, sections, rest, d) && TruthfulFile(read, sections, rest)
             && |leaked| > 0
    requires |sections| > 0 ==>
               m <= |sections[0].parts| && 0 < |Flatten(sections[0].parts[..m])| <= sections[0].split
    ensures var resumes := FirstLogTime(FileEntries(sections, rest));
            resumes.Some? ==> 0 <= resumes.value - leaked[|leaked| - 1].0 <= d
  {
    hide *;
    if |sections| == 0 {
      LastRun(leaked, sections, rest, d);
      NoMoreEntries(sections, rest);
      TruthfulRest(read, sections, rest);
      Continues(leaked, Flatten(rest), d);
      assert PartEntries(rest) + [] == PartEntries(rest);
      FirstOfParts(read, rest, [], d);
      NoEntries();
    } else {
      var s := sections[0];
      OtherSections(read, leaked, sections, rest, d);
      FitsFacts(leaked, s, d);
      SplitParts(s, m);
      Continues(leaked, s.Own(), d);
      FirstEntries(sections, rest);
      HeardFirst(read, s, m, FileEntries(sections[1..], rest), d);
    }
  }

  lemma NoMoreEntries(sections: seq<Section>, rest: seq<Part>)
    requires |sections| == 0
    ensures FileEntries(sections, rest) == PartEntries(rest)
  {
    hide PartEntries;
  }
}
