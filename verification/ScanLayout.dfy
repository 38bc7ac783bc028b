/** A file's data section as its writer lays it out: each chunk followed by its
    MessageIndex records, between other records. */
module ScanLayout {
  import opened Spans
  import opened Feed
  import opened Scan

  /** A MessageIndex record after a chunk. */
  datatype Mark = Mark(offset: nat, channel: nat, count: nat)

  datatype Group =
    | ChunkGroup(offset: nat, startTime: nat, endTime: nat, contents: seq<Inner>, marks: seq<Mark>)
    | Single(placed: Placed)

  predicate ValidGroup(g: Group) {
    g.Single? ==> !g.placed.record.Chunk? && !g.placed.record.MessageIndex? && !EndsData(g.placed.record)
  }

  predicate ValidLayout(groups: seq<Group>) {
    forall g <- groups :: ValidGroup(g)
  }

  function MarkRecords(marks: seq<Mark>): (records: seq<Placed>)
    ensures |records| == |marks|
    ensures forall i :: 0 <= i < |marks| ==>
              records[i] == Placed(marks[i].offset, MessageIndex(marks[i].channel, marks[i].count))
  {
    seq(|marks|, i requires 0 <= i < |marks| => Placed(marks[i].offset, MessageIndex(marks[i].channel, marks[i].count)))
  }

  function GroupRecords(g: Group): seq<Placed> {
    match g
    case ChunkGroup(offset, startTime, endTime, contents, marks) =>
      [Placed(offset, Chunk(startTime, endTime, contents))] + MarkRecords(marks)
    case Single(placed) => [placed]
  }

  function Records(groups: seq<Group>): seq<Placed> {
    if |groups| == 0 then [] else Records(groups[..|groups| - 1]) + GroupRecords(groups[|groups| - 1])
  }

  predicate AllData(records: seq<Placed>) {
    forall i :: 0 <= i < |records| ==> !EndsData(records[i].record)
  }

  lemma {:induction false} RecordsAreData(groups: seq<Group>)
    requires ValidLayout(groups)
    ensures AllData(Records(groups))
  {
    if |groups| > 0 {
      RecordsAreData(groups[..|groups| - 1]);
      assert ValidGroup(groups[|groups| - 1]);
    }
  }

  /** Where each channel's MessageIndex record is. */
  function OffsetsOf(marks: seq<Mark>): map<nat, nat> {
    if |marks| == 0 then map[]
    else OffsetsOf(marks[..|marks| - 1])[marks[|marks| - 1].channel := marks[|marks| - 1].offset]
  }

  function CountsOf(marks: seq<Mark>): map<nat, nat> {
    if |marks| == 0 then map[]
    else Bump(CountsOf(marks[..|marks| - 1]), marks[|marks| - 1].channel, marks[|marks| - 1].count)
  }

  lemma {:induction false} SameChannels(marks: seq<Mark>)
    ensures OffsetsOf(marks).Keys == CountsOf(marks).Keys
    ensures OffsetsOf(marks) == map[] <==> |marks| == 0
  {
    if |marks| > 0 {
      SameChannels(marks[..|marks| - 1]);
      assert marks[|marks| - 1].channel in OffsetsOf(marks);
    }
  }

  /** The truthful index of a chunk. */
  function IndexOf(g: Group): ChunkIndex
    requires g.ChunkGroup?
  {
    ChunkIndex(g.offset, g.startTime, g.endTime, OffsetsOf(g.marks))
  }

  function PendingOf(g: Group): Pending
    requires g.ChunkGroup?
  {
    Pending(g.contents, IndexOf(g), CountsOf(g.marks))
  }

  /** What a group adds to a scan with no chunk pending, once its own chunk, if any, has been recorded. */
  function AddGroup(s: ScanState, g: Group): ScanState
    requires ValidGroup(g)
  {
    match g
    case ChunkGroup(_, _, _, _, _) => Flushed(s.(chunk := Some(PendingOf(g))), false)
    case Single(placed) => ScanRecord(s, placed)
  }

  function Settled(groups: seq<Group>): ScanState
    requires ValidLayout(groups)
  {
    if |groups| == 0 then NOTHING else AddGroup(Settled(groups[..|groups| - 1]), groups[|groups| - 1])
  }

  lemma {:induction false} ScanConcat(s: ScanState, a: seq<Placed>, b: seq<Placed>)
    requires AllData(a) && AllData(b)
    ensures ScanAll(s, a + b) == ScanAll(ScanAll(s, a), b)
  {
    if |b| == 0 {
      assert a + b == a;
    } else {
      var n := |b| - 1;
      assert (a + b)[..|a| + n] == a + b[..n];
      ScanConcat(s, a, b[..n]);
    }
  }

  lemma {:induction false} ScanMarks(s: ScanState, g: Group, marks: seq<Mark>)
    requires g.ChunkGroup? && g.marks == [] && s.chunk == Some(PendingOf(g))
    ensures ScanAll(s, MarkRecords(marks)) == s.(chunk := Some(PendingOf(g.(marks := marks))))
  {
    if |marks| > 0 {
      var n := |marks| - 1;
      ScanMarks(s, g, marks[..n]);
      assert MarkRecords(marks)[..n] == MarkRecords(marks[..n]);
    } else {
      assert g.(marks := marks) == g;
    }
  }

  /** The scan just after a group's records, its chunk still pending. */
  lemma ScanGroup(s: ScanState, g: Group)
    requires ValidGroup(g) && AllData(GroupRecords(g))
    ensures var settled := Flushed(s, false);
            ScanAll(s, GroupRecords(g)) ==
            if g.ChunkGroup? then settled.(chunk := Some(PendingOf(g))) else AddGroup(settled, g)
    ensures g.Single? ==> ScanAll(s, GroupRecords(g)).chunk == None
  {
    match g
    case Single(placed) =>
      assert ScanAll(s, [placed]) == ScanRecord(ScanAll(s, []), placed);
    case ChunkGroup(offset, startTime, endTime, contents, marks) =>
      var first := [Placed(offset, Chunk(startTime, endTime, contents))];
      var empty := g.(marks := []);
      ScanConcat(s, first, MarkRecords(marks));
      assert ScanAll(s, first) == ScanRecord(ScanAll(s, []), first[0]);
      ScanMarks(ScanAll(s, first), empty, marks);
      assert empty.(marks := marks) == g;
  }

  /** Scanning the records and then recording the last chunk is adding the groups one by one. */
  lemma {:induction false} ScanGroups(groups: seq<Group>)
    requires ValidLayout(groups)
    ensures AllData(Records(groups))
    ensures Flushed(ScanAll(NOTHING, Records(groups)), false) == Settled(groups)
    ensures Settled(groups).chunk == None
  {
    RecordsAreData(groups);
    if |groups| > 0 {
      var n := |groups| - 1;
      ScanGroups(groups[..n]);
      ScanLast(groups);
      ScanGroup(ScanAll(NOTHING, Records(groups[..n])), groups[n]);
      SettlesAs(ScanAll(NOTHING, Records(groups[..n])), groups[n]);
    }
  }

  lemma SettlesAs(s: ScanState, g: Group)
    requires ValidGroup(g)
    ensures var settled := Flushed(s, false);
            AddGroup(settled, g) ==
            if g.ChunkGroup? then Flushed(settled.(chunk := Some(PendingOf(g))), false)
                else Flushed(AddGroup(settled, g), false)
    ensures AddGroup(Flushed(s, false), g).chunk == None
  {
  }

  lemma DataSuffix(a: seq<Placed>, b: seq<Placed>)
    requires AllData(a + b)
    ensures AllData(b)
  {
    forall i | 0 <= i < |b|
      ensures !EndsData(b[i].record)
    {
      assert b[i] == (a + b)[|a| + i];
    }
  }

  /** Scanning the last group's records after the others'. */
  lemma ScanLast(groups: seq<Group>)
    requires ValidLayout(groups) && |groups| > 0
    ensures var n := |groups| - 1;
            && ValidGroup(groups[n]) && AllData(GroupRecords(groups[n]))
            && AllData(Records(groups[..n])) && AllData(Records(groups))
            && ScanAll(NOTHING, Records(groups))
                == ScanAll(ScanAll(NOTHING, Records(groups[..n])), GroupRecords(groups[n]))
  {
    hide ScanAll, GroupRecords;
    var n := |groups| - 1;
    assert groups[n] in groups;
    RecordsAreData(groups);
    RecordsAreData(groups[..n]);
    var last := GroupRecords(groups[n]);
    DataSuffix(Records(groups[..n]), last);
    ScanConcat(NOTHING, Records(groups[..n]), last);
  }

  lemma {:induction false} DataBefore(records: seq<Placed>, rest: seq<Placed>)
    requires AllData(records)
    requires |rest| > 0 ==> EndsData(rest[0].record)
    ensures DataRecords(records + rest) == records
  {
    if |records| > 0 {
      assert (records + rest)[1..] == records[1..] + rest;
      DataBefore(records[1..], rest);
    }
  }

  /** A complete file: the groups, then the end of the data section. */
  lemma ScannedComplete(groups: seq<Group>, rest: seq<Placed>)
    requires ValidLayout(groups) && |rest| > 0 && EndsData(rest[0].record)
    ensures Scanned(Records(groups) + rest) == Settled(groups)
  {
    ScanGroups(groups);
    DataBefore(Records(groups), rest);
  }

  /** A file cut short: the last group's chunk, if it is one, is opened. */
  function CutShort(groups: seq<Group>): ScanState
    requires ValidLayout(groups)
  {
    if |groups| == 0 then NOTHING
    else
      var n := |groups| - 1;
      match groups[n]
      case ChunkGroup(_, _, _, _, _) => Flushed(Settled(groups[..n]).(chunk := Some(PendingOf(groups[n]))), true)
      case Single(_) => Settled(groups)
  }

  lemma ScannedCutShort(groups: seq<Group>)
    requires ValidLayout(groups)
    ensures Scanned(Records(groups)) == CutShort(groups)
  {
    ScanGroups(groups);
    DataBefore(Records(groups), []);
    assert Records(groups) + [] == Records(groups);
    if |groups| > 0 {
      var n := |groups| - 1;
      ScanGroups(groups[..n]);
      ScanLast(groups);
      ScanGroup(ScanAll(NOTHING, Records(groups[..n])), groups[n]);
      SettlesAs(ScanAll(NOTHING, Records(groups[..n])), groups[n]);
    }
  }
}
