/** Rebuilding the timeline and the channel spans from a file's entries. */
module Feed {
  import opened Spans
  import opened Timeline
  import opened Conservation
  import opened Accumulator
  import opened ChannelSpan
  import opened Leak

  datatype ClockStep = ClockStep(offset: nat, size: int)

  /** What a chunk's index says: where the chunk is, its time range, and where
      the MessageIndex record of each of its channels is. */
  datatype ChunkIndex = ChunkIndex(offset: nat, startTime: nat, endTime: nat, indexOffsets: map<nat, nat>)

  /** What a file holds for the timeline, in order. */
  datatype Entry =
    | StepEntry(step: ClockStep)
    | ChunkEntry(chunk: ChunkIndex)
    | MessagesEntry(times: seq<Stamp>)

  /** What the file's message indexes answer about its chunks: a chunk's
      message times, and a channel's extent over the chunks holding it. */
  datatype Indexes = Indexes(
    messageTimes: ChunkIndex -> Option<seq<Stamp>>,
    channelExtent: (seq<ChunkIndex>, nat) -> Option<Option<Span>>)

  // ---------------------------------------------------------------- what feeding computes

  /** The calls made on the accumulator, the spans recorded for channels, and
      for every segment and channel the chunks fed whole that hold it. */
  datatype Feeding = Feeding(
    authoritative: bool,
    events: seq<Event>,
    pushes: seq<ChannelItem>,
    holding: map<(nat, nat), seq<ChunkIndex>>)
  {
    function Timeline(): State {
      Run(authoritative, events).state
    }
  }

  function Start(authoritative: bool): Feeding {
    Feeding(authoritative, [], [], map[])
  }

  function Call(f: Feeding, event: Event): Feeding {
    f.(events := f.events + [event])
  }

  function Point(t: nat): Span {
    Span(t, t)
  }

  function PushPoint(f: Feeding, stamp: Stamp): Feeding {
    var g := Call(f, Pushed(Point(stamp.0)));
    g.(pushes := f.pushes + [ChannelItem(g.Timeline().segment, stamp.1, Point(stamp.0))])
  }

  function PushPoints(f: Feeding, times: seq<Stamp>): Feeding {
    if |times| == 0 then f
    else PushPoint(PushPoints(f, times[..|times| - 1]), times[|times| - 1])
  }

  function LastEnd(f: Feeding): Option<int> {
    match f.Timeline().last
    case None => None
    case Some(last) => Some(last.end)
  }

  function SplitIndex(times: seq<Stamp>, step: int, before: Option<int>, after: Option<nat>): (k: nat)
    ensures k <= |times|
  {
    match LeakSplit(times, step, before, after)
    case None => |times|
    case Some(k) => k
  }

  /** Messages written before a record, those taken after the step placed on its far side. */
  function PushAcrossStep(f: Feeding, times: seq<Stamp>, step: int, resumes: Option<nat>): Feeding {
    var k := SplitIndex(times, step, LastEnd(f), resumes);
    PushPoints(Call(PushPoints(f, times[..k]), Stepped(step)), times[k..])
  }

  /** The chunks held for each channel once `chunk` has been pushed unexpanded in `segment`. */
  function Hold(holding: map<(nat, nat), seq<ChunkIndex>>, segment: nat, chunk: ChunkIndex,
                channels: set<nat>): map<(nat, nat), seq<ChunkIndex>> {
    map key | key in holding.Keys + (set c | c in channels :: (segment, c)) ::
      if key.0 == segment && key.1 in channels
      then (if key in holding then holding[key] else []) + [chunk]
      else holding[key]
  }

  function PushChunk(f: Feeding, chunk: ChunkIndex): Feeding {
    var g := Call(f, Pushed(Span(chunk.startTime, chunk.endTime)));
    g.(holding := Hold(f.holding, g.Timeline().segment, chunk, chunk.indexOffsets.Keys))
  }

  /** A chunk without any message. */
  predicate NoMessages(chunk: ChunkIndex) {
    chunk.indexOffsets == map[] && chunk.startTime == 0 && chunk.endTime == 0
  }

  /** The first log time that the entries tell of, unless a record comes first. */
  function FirstLogTime(entries: seq<Entry>): Option<nat> {
    if |entries| == 0 then None
    else match entries[0]
      case StepEntry(_) => None
      case MessagesEntry(times) => if |times| > 0 then Some(times[0].0) else FirstLogTime(entries[1..])
      case ChunkEntry(chunk) =>
        if chunk.indexOffsets != map[] || chunk.endTime != 0 then Some(chunk.startTime) else FirstLogTime(entries[1..])
  }

  /** The chunk's message times, when they are looked up: before a record, or
      when the chunk spans more than the gap threshold. */
  function ResolvedTimes(indexes: Indexes, chunk: ChunkIndex, beforeRecord: bool): Option<seq<Stamp>> {
    var straddles := SaturatingSub(chunk.endTime, chunk.startTime) > STEP_GAP_NS;
    if straddles || beforeRecord then indexes.messageTimes(chunk) else None
  }

  /** The record that follows, when there is one. */
  function NextStep(entries: seq<Entry>): Option<ClockStep> {
    if |entries| > 1 && entries[1].StepEntry? then Some(entries[1].step) else None
  }

  function FeedMessages(f: Feeding, times: seq<Stamp>, next: Option<ClockStep>, resumes: Option<nat>): Feeding {
    match next
    case Some(step) => PushAcrossStep(f, times, step.size, resumes)
    case None => PushPoints(f, times)
  }

  function FeedChunk(indexes: Indexes, f: Feeding, chunk: ChunkIndex, next: Option<ClockStep>,
                     resumes: Option<nat>): Feeding {
    match ResolvedTimes(indexes, chunk, next.Some?)
    case Some(times) => FeedMessages(f, times, next, resumes)
    case None =>
      var g := PushChunk(f, chunk);
      match next
      case Some(step) => Call(g, SteppedUnresolved(step.size))
      case None => g
  }

  /** Whether handling the first entry also handles the record after it. */
  predicate TakesNext(entries: seq<Entry>)
    requires |entries| > 0
  {
    && NextStep(entries).Some?
    && !entries[0].StepEntry?
    && !(entries[0].ChunkEntry? && NoMessages(entries[0].chunk))
  }

  function FeedEntry(indexes: Indexes, f: Feeding, entries: seq<Entry>): Feeding
    requires |entries| > 0
  {
    var next := NextStep(entries);
    var resumes := if next.Some? then FirstLogTime(entries[2..]) else None;
    match entries[0]
    case StepEntry(step) => Call(f, Stepped(step.size))
    case MessagesEntry(times) => FeedMessages(f, times, next, resumes)
    case ChunkEntry(chunk) =>
      if NoMessages(chunk) then f else FeedChunk(indexes, f, chunk, next, resumes)
  }

  function FeedAll(indexes: Indexes, f: Feeding, entries: seq<Entry>): Feeding
    decreases |entries|
  {
    if |entries| == 0 then f
    else FeedAll(indexes, FeedEntry(indexes, f, entries), entries[if TakesNext(entries) then 2 else 1..])
  }

  lemma {:induction false} PushPointsConcat(f: Feeding, a: seq<Stamp>, b: seq<Stamp>)
    ensures PushPoints(f, a + b) == PushPoints(PushPoints(f, a), b)
  {
    hide PushPoint;
    if |b| == 0 {
      assert a + b == a;
    } else {
      var n := |b| - 1;
      assert (a + b)[..|a| + n] == a + b[..n];
      PushPointsConcat(f, a, b[..n]);
    }
  }

  lemma CallTimeline(f: Feeding, event: Event)
    ensures Call(f, event).Timeline() == Apply(Run(f.authoritative, f.events), event).state
  {
    assert (f.events + [event])[..|f.events|] == f.events;
  }

  /** An entry that tells of no log time: no messages, or a chunk with neither an index nor
      an end. */
  predicate TellsNoTime(entry: Entry) {
    || entry == MessagesEntry([])
    || (entry.ChunkEntry? && |entry.chunk.indexOffsets| == 0 && entry.chunk.endTime == 0)
  }

  /** None of the first `n` entries tells of a log time. */
  predicate NoneTell(entries: seq<Entry>, n: nat) {
    n <= |entries| && forall j :: 0 <= j < n ==> TellsNoTime(entries[j])
  }

  /** What comes after a record begins where the first entry says that tells of a log time,
      and is not known when there is none up to the next record. */
  lemma {:induction false} FirstTold(entries: seq<Entry>) returns (i: nat)
    ensures NoneTell(entries, i)
    ensures match FirstLogTime(entries)
            case None => i < |entries| ==> entries[i].StepEntry?
            case Some(t) => i < |entries| && StartsAt(entries[i], t)
  {
    if |entries| > 0 && TellsNoTime(entries[0]) {
      i := FirstTold(entries[1..]);
      i := i + 1;
    } else {
      i := 0;
    }
  }

  predicate StartsAt(entry: Entry, t: nat) {
    match entry
    case StepEntry(_) => false
    case MessagesEntry(times) => |times| > 0 && times[0].0 == t
    case ChunkEntry(chunk) => !TellsNoTime(entry) && chunk.startTime == t
  }

  // ---------------------------------------------------------------- counting records

  function StepEvents(events: seq<Event>): nat {
    if |events| == 0 then 0
    else StepEvents(events[..|events| - 1]) + if events[|events| - 1].Pushed? then 0 else 1
  }

  function RecordCount(entries: seq<Entry>): nat {
    if |entries| == 0 then 0
    else (if entries[0].StepEntry? then 1 else 0) + RecordCount(entries[1..])
  }

  lemma CallCounts(f: Feeding, event: Event)
    ensures StepEvents(Call(f, event).events) == StepEvents(f.events) + if event.Pushed? then 0 else 1
    ensures Call(f, event).authoritative == f.authoritative
  {
    assert (f.events + [event])[..|f.events|] == f.events;
  }

  lemma {:induction false} PushPointsCounts(f: Feeding, times: seq<Stamp>)
    ensures StepEvents(PushPoints(f, times).events) == StepEvents(f.events)
    ensures PushPoints(f, times).authoritative == f.authoritative
  {
    if |times| > 0 {
      var n := |times| - 1;
      PushPointsCounts(f, times[..n]);
      CallCounts(PushPoints(f, times[..n]), Pushed(Point(times[n].0)));
    }
  }

  lemma FeedMessagesCounts(f: Feeding, times: seq<Stamp>, next: Option<ClockStep>, resumes: Option<nat>)
    ensures var g := FeedMessages(f, times, next, resumes);
            StepEvents(g.events) == StepEvents(f.events) + (if next.Some? then 1 else 0)
            && g.authoritative == f.authoritative
  {
    match next
    case None => PushPointsCounts(f, times);
    case Some(step) =>
      var k := SplitIndex(times, step.size, LastEnd(f), resumes);
      PushPointsCounts(f, times[..k]);
      CallCounts(PushPoints(f, times[..k]), Stepped(step.size));
      PushPointsCounts(Call(PushPoints(f, times[..k]), Stepped(step.size)), times[k..]);
  }

  lemma FeedEntryCounts(indexes: Indexes, f: Feeding, entries: seq<Entry>)
    requires |entries| > 0
    ensures var g := FeedEntry(indexes, f, entries);
            && StepEvents(g.events)
               == StepEvents(f.events) + (if entries[0].StepEntry? || TakesNext(entries) then 1 else 0)
            && g.authoritative == f.authoritative
  {
    var next := NextStep(entries);
    var resumes := if next.Some? then FirstLogTime(entries[2..]) else None;
    match entries[0]
    case StepEntry(step) => CallCounts(f, Stepped(step.size));
    case MessagesEntry(times) => FeedMessagesCounts(f, times, next, resumes);
    case ChunkEntry(chunk) =>
      if !NoMessages(chunk) {
        match ResolvedTimes(indexes, chunk, next.Some?)
        case Some(times) => FeedMessagesCounts(f, times, next, resumes);
        case None =>
          CallCounts(f, Pushed(Span(chunk.startTime, chunk.endTime)));
          if next.Some? {
            CallCounts(PushChunk(f, chunk), SteppedUnresolved(next.value.size));
          }
      }
  }

  /** Every record is handled exactly once, by look-ahead or on its own. */
  lemma {:induction false} FeedCounts(indexes: Indexes, f: Feeding, entries: seq<Entry>)
    ensures var g := FeedAll(indexes, f, entries);
            StepEvents(g.events) == StepEvents(f.events) + RecordCount(entries) && g.authoritative == f.authoritative
    decreases |entries|
  {
    if |entries| > 0 {
      FeedEntryCounts(indexes, f, entries);
      if TakesNext(entries) {
        assert entries[1..][1..] == entries[2..];
        FeedCounts(indexes, FeedEntry(indexes, f, entries), entries[2..]);
      } else {
        FeedCounts(indexes, FeedEntry(indexes, f, entries), entries[1..]);
      }
    }
  }

  /** With authoritative records no jump is ever counted as a step, so none is
      uncounted either. */
  predicate NoCountedGap(s: State) {
    && s.authoritative
    && (s.gap.Some? ==> !s.gap.value.kind.StepGap?)
    && (s.previous.Some? && s.previous.value.gap.Some? ==> !s.previous.value.gap.value.kind.StepGap?)
  }

  lemma {:induction false} AuthoritativeSteps(events: seq<Event>)
    ensures var s := Run(true, events).state;
            NoCountedGap(s) && s.steps == StepEvents(events)
  {
    if |events| > 0 {
      var n := |events| - 1;
      AuthoritativeSteps(events[..n]);
      var s := Run(true, events[..n]).state;
      match events[n]
      case Pushed(span) => PushNotCounted(s, span);
      case Stepped(size) => RecordCounted(s, size, false);
      case SteppedUnresolved(size) => RecordCounted(s, size, true);
    }
  }

  lemma PushNotCounted(s: State, span: Span)
    requires NoCountedGap(s)
    ensures NoCountedGap(Push(s, span)) && Push(s, span).steps == s.steps
  {
  }

  lemma RecordCounted(s: State, step: int, trimLast: bool)
    requires NoCountedGap(s)
    ensures NoCountedGap(RecordStep(s, step, trimLast)) && RecordStep(s, step, trimLast).steps == s.steps + 1
  {
  }

  /** A file whose records are authoritative is reported with exactly one
      clock step per record, whatever else is in it. */
  lemma OneStepPerRecord(indexes: Indexes, entries: seq<Entry>)
    ensures Finish(FeedAll(indexes, Start(true), entries).Timeline()).steps == RecordCount(entries)
  {
    FeedCounts(indexes, Start(true), entries);
    AuthoritativeSteps(FeedAll(indexes, Start(true), entries).events);
  }
}
