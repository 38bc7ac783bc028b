/** The scan of a file record by record: what it collects, and which chunks it opens. */
module Scan {
  import opened Spans
  import opened Leak
  import opened Feed

  const CLOCK_SYNC := "clock_sync"
  const CLOCK_STEP := "clock_step"

  /** A record inside a chunk, once decompressed. */
  datatype Inner =
    | InnerChannel(id: nat, topic: string)
    | InnerMessage(time: nat, channel: nat)
    | InnerOther

  /** A top-level record. `contents` is what decompressing the chunk yields;
      `stepNs` is the metadata's step size, when it has one that parses. */
  datatype Record =
    | Chunk(startTime: nat, endTime: nat, contents: seq<Inner>)
    | MessageIndex(channel: nat, count: nat)
    | Channel(id: nat, topic: string)
    | Message(time: nat, channel: nat)
    | Metadata(name: string, stepNs: Option<int>)
    | DataEnd
    | Footer
    | Other

  datatype Placed = Placed(offset: nat, record: Record)

  /** The last chunk read, while its indexes are being collected. */
  datatype Pending = Pending(contents: seq<Inner>, index: ChunkIndex, counts: map<nat, nat>)

  datatype ScanState = ScanState(
    entries: seq<Entry>,
    topics: map<nat, string>,
    counts: map<nat, nat>,
    clockSync: bool,
    chunk: Option<Pending>,
    skipped: seq<seq<Inner>>)

  const NOTHING := ScanState([], map[], map[], false, None, [])

  function CountOf(counts: map<nat, nat>, id: nat): nat {
    if id in counts then counts[id] else 0
  }

  function Bump(counts: map<nat, nat>, id: nat, more: nat): map<nat, nat> {
    counts[id := CountOf(counts, id) + more]
  }

  function AddCounts(counts: map<nat, nat>, more: map<nat, nat>): map<nat, nat> {
    map id | id in counts.Keys + more.Keys :: CountOf(counts, id) + CountOf(more, id)
  }

  /** `topics` with the channels declared in `contents`, the latest winning. */
  function Declare(topics: map<nat, string>, contents: seq<Inner>): map<nat, string> {
    if |contents| == 0 then topics
    else
      var before := Declare(topics, contents[..|contents| - 1]);
      match contents[|contents| - 1]
      case InnerChannel(id, topic) => before[id := topic]
      case _ => before
  }

  function CountInside(counts: map<nat, nat>, contents: seq<Inner>): map<nat, nat> {
    if |contents| == 0 then counts
    else
      var before := CountInside(counts, contents[..|contents| - 1]);
      match contents[|contents| - 1]
      case InnerMessage(_, channel) => Bump(before, channel, 1)
      case _ => before
  }

  function TimesInside(contents: seq<Inner>): seq<Stamp> {
    if |contents| == 0 then []
    else
      var before := TimesInside(contents[..|contents| - 1]);
      match contents[|contents| - 1]
      case InnerMessage(time, channel) => before + [(time, channel)]
      case _ => before
  }

  predicate Unseen(topics: map<nat, string>, channels: set<nat>) {
    !(channels <= topics.Keys)
  }

  /** Opens skipped chunks, newest first, until every channel is known. */
  function OpenSkipped(topics: map<nat, string>, skipped: seq<seq<Inner>>, channels: set<nat>)
    : (map<nat, string>, seq<seq<Inner>>)
    decreases |skipped|
  {
    if !Unseen(topics, channels) || |skipped| == 0 then (topics, skipped)
    else OpenSkipped(Declare(topics, skipped[|skipped| - 1]), skipped[..|skipped| - 1], channels)
  }

  /** Records the pending chunk; `expand` opens it even when it has indexes. */
  function Flushed(s: ScanState, expand: bool): ScanState {
    match s.chunk
    case None => s
    case Some(c) =>
      var t := s.(chunk := None);
      var channels := c.index.indexOffsets.Keys;
      if expand || c.index.indexOffsets == map[] then
        t.(topics := Declare(s.topics, c.contents),
           counts := CountInside(s.counts, c.contents),
           entries := s.entries + [MessagesEntry(TimesInside(c.contents))])
      else
        var (topics, skipped) :=
          if Unseen(s.topics, channels) then OpenSkipped(Declare(s.topics, c.contents), s.skipped, channels)
          else (s.topics, s.skipped + [c.contents]);
        t.(topics := topics, skipped := skipped,
           counts := AddCounts(s.counts, c.counts),
           entries := s.entries + [ChunkEntry(c.index)])
  }

  /** A message outside any chunk. */
  function AddMessage(s: ScanState, time: nat, channel: nat): ScanState {
    var n := |s.entries|;
    s.(counts := Bump(s.counts, channel, 1),
       entries := if n > 0 && s.entries[n - 1].MessagesEntry?
                  then s.entries[..n - 1] + [MessagesEntry(s.entries[n - 1].times + [(time, channel)])]
                  else s.entries + [MessagesEntry([(time, channel)])])
  }

  function AddIndex(s: ScanState, offset: nat, channel: nat, count: nat): ScanState {
    match s.chunk
    case None => s
    case Some(c) =>
      var index := c.index.(indexOffsets := c.index.indexOffsets[channel := offset]);
      s.(chunk := Some(c.(index := index, counts := Bump(c.counts, channel, count))))
  }

  /** The clock step a metadata record describes, if any. */
  function StepFrom(offset: nat, name: string, stepNs: Option<int>): Option<ClockStep> {
    if name == CLOCK_STEP && stepNs.Some? then Some(ClockStep(offset, stepNs.value)) else None
  }

  function AddMetadata(s: ScanState, offset: nat, name: string, stepNs: Option<int>): ScanState {
    var step := StepFrom(offset, name, stepNs);
    s.(clockSync := s.clockSync || name == CLOCK_SYNC,
       entries := if step.Some? then s.entries + [StepEntry(step.value)] else s.entries)
  }

  predicate EndsData(record: Record) {
    record.DataEnd? || record.Footer?
  }

  function ScanRecord(s: ScanState, placed: Placed): ScanState
    requires !EndsData(placed.record)
  {
    match placed.record
    case MessageIndex(channel, count) => AddIndex(s, placed.offset, channel, count)
    case Chunk(startTime, endTime, contents) =>
      Flushed(s, false).(chunk := Some(Pending(contents, ChunkIndex(placed.offset, startTime, endTime, map[]), map[])))
    case Channel(id, topic) => var t := Flushed(s, false); t.(topics := t.topics[id := topic])
    case Message(time, channel) => AddMessage(Flushed(s, false), time, channel)
    case Metadata(name, stepNs) => AddMetadata(Flushed(s, false), placed.offset, name, stepNs)
    case Other => Flushed(s, false)
  }

  /** The records before the end of the data section. */
  function DataRecords(records: seq<Placed>): (data: seq<Placed>)
    ensures |data| <= |records| && data == records[..|data|]
    ensures forall i :: 0 <= i < |data| ==> !EndsData(data[i].record)
    ensures |data| < |records| ==> EndsData(records[|data|].record)
  {
    if |records| == 0 || EndsData(records[0].record) then []
    else [records[0]] + DataRecords(records[1..])
  }

  predicate Complete(records: seq<Placed>) {
    |DataRecords(records)| < |records|
  }

  function ScanAll(s: ScanState, data: seq<Placed>): ScanState
    requires forall i :: 0 <= i < |data| ==> !EndsData(data[i].record)
  {
    if |data| == 0 then s else ScanRecord(ScanAll(s, data[..|data| - 1]), data[|data| - 1])
  }

  /** What the scan has collected at the end: in a file cut short the
      last chunk is opened, as not all its indexes need be there. */
  function Scanned(records: seq<Placed>): ScanState {
    Flushed(ScanAll(NOTHING, DataRecords(records)), !Complete(records))
  }

  // ---------------------------------------------------------------- the scan, as it runs

  class LinearScan {
    var entries: seq<Entry>
    var topics: map<nat, string>
    var counts: map<nat, nat>
    var clockSync: bool
    var chunk: Option<Pending>
    var skipped: seq<seq<Inner>>

    ghost function Value(): ScanState
      reads this
    {
      ScanState(entries, topics, counts, clockSync, chunk, skipped)
    }

    constructor ()
      ensures Value() == NOTHING
    {
      entries, topics, counts, clockSync, chunk, skipped := [], map[], map[], false, None, [];
    }

    method OpenChannels(contents: seq<Inner>)
      modifies this`topics
      ensures topics == Declare(old(topics), contents)
    {
      for i := 0 to |contents|
        invariant topics == Declare(old(topics), contents[..i])
      {
        assert contents[..i + 1][..i] == contents[..i];
        if contents[i].InnerChannel? {
          topics := topics[contents[i].id := contents[i].topic];
        }
      }
      assert contents[..|contents|] == contents;
    }

    method Expand(contents: seq<Inner>)
      modifies this
      ensures Value() == old(Value()).(topics := Declare(old(topics), contents),
                                       counts := CountInside(old(counts), contents),
                                       entries := old(entries) + [MessagesEntry(TimesInside(contents))])
    {
      var times: seq<Stamp> := [];
      for i := 0 to |contents|
        invariant Value() == old(Value()).(topics := Declare(old(topics), contents[..i]),
                                           counts := CountInside(old(counts), contents[..i]))
        invariant times == TimesInside(contents[..i])
      {
        assert contents[..i + 1][..i] == contents[..i];
        match contents[i] {
          case InnerChannel(id, topic) => topics := topics[id := topic];
          case InnerMessage(time, channel) =>
            counts := Bump(counts, channel, 1);
            times := times + [(time, channel)];
          case InnerOther =>
        }
      }
      assert contents[..|contents|] == contents;
      entries := entries + [MessagesEntry(times)];
    }

    method Flush(expand: bool)
      modifies this
      ensures Value() == Flushed(old(Value()), expand)
    {
      if chunk == None {
        return;
      }
      var c := chunk.value;
      chunk := None;
      if expand || c.index.indexOffsets == map[] {
        Expand(c.contents);
        return;
      }
      var channels := c.index.indexOffsets.Keys;
      if Unseen(topics, channels) {
        OpenChannels(c.contents);
        ghost var (topics', skipped') := OpenSkipped(topics, skipped, channels);
        while Unseen(topics, channels) && |skipped| > 0
          invariant chunk == None && entries == old(entries) && counts == old(counts) && clockSync == old(clockSync)
          invariant OpenSkipped(topics, skipped, channels) == (topics', skipped')
          decreases |skipped|
        {
          var contents := skipped[|skipped| - 1];
          skipped := skipped[..|skipped| - 1];
          OpenChannels(contents);
        }
      } else {
        skipped := skipped + [c.contents];
      }
      counts := AddCounts(counts, c.counts);
      entries := entries + [ChunkEntry(c.index)];
    }

    method Message(time: nat, channel: nat)
      modifies this
      ensures Value() == AddMessage(old(Value()), time, channel)
    {
      counts := Bump(counts, channel, 1);
      var n := |entries|;
      if n > 0 && entries[n - 1].MessagesEntry? {
        entries := entries[..n - 1] + [MessagesEntry(entries[n - 1].times + [(time, channel)])];
      } else {
        entries := entries + [MessagesEntry([(time, channel)])];
      }
    }

    method MessageIndex(offset: nat, channel: nat, count: nat)
      modifies this
      ensures Value() == AddIndex(old(Value()), offset, channel, count)
    {
      if chunk.Some? {
        var c := chunk.value;
        var index := c.index.(indexOffsets := c.index.indexOffsets[channel := offset]);
        chunk := Some(c.(index := index, counts := Bump(c.counts, channel, count)));
      }
    }

    method Record(placed: Placed)
      requires !EndsData(placed.record)
      modifies this
      ensures Value() == ScanRecord(old(Value()), placed)
    {
      match placed.record {
        case MessageIndex(channel, count) => MessageIndex(placed.offset, channel, count);
        case Chunk(startTime, endTime, contents) =>
          Flush(false);
          chunk := Some(Pending(contents, ChunkIndex(placed.offset, startTime, endTime, map[]), map[]));
        case Channel(id, topic) =>
          Flush(false);
          topics := topics[id := topic];
        case Message(time, channel) =>
          Flush(false);
          Message(time, channel);
        case Metadata(name, stepNs) =>
          Flush(false);
          clockSync := clockSync || name == CLOCK_SYNC;
          var step := StepFrom(placed.offset, name, stepNs);
          if step.Some? {
            entries := entries + [StepEntry(step.value)];
          }
        case Other => Flush(false);
      }
    }
  }

  /** Walks the records to the end of the data section, or as far as they go. */
  method ReadLinear(records: seq<Placed>) returns (scan: LinearScan)
    ensures fresh(scan) && scan.Value() == Scanned(records)
  {
    scan := new LinearScan();
    var complete := false;
    var i := 0;
    ghost var data := DataRecords(records);
    while i < |records| && !complete
      invariant 0 <= i <= |records| && fresh(scan)
      invariant !complete ==> i <= |data|
      invariant complete ==> i == |data| < |records|
      invariant i <= |data| && scan.Value() == ScanAll(NOTHING, data[..i])
      decreases |records| - i, !complete
    {
      if EndsData(records[i].record) {
        complete := true;
      } else {
        assert i < |data| && data[i] == records[i];
        assert data[..i + 1][..i] == data[..i];
        scan.Record(records[i]);
        i := i + 1;
      }
    }
    assert data[..i] == data;
    scan.Flush(!complete);
  }
}
