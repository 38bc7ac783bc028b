/** What a scan tells the timeline: in the file's order every message outside the
    compressed chunks, every clock step, and every chunk that stays compressed. */
module ScannedEntries {
  import opened Spans
  import opened Leak
  import opened Feed
  import opened Scan
  import opened ScanLayout

  // ---------------------------------------------------------------- the file, and the entries, piece by piece

  /** What a file holds, in order: what is in its opened chunks and outside its chunks
      record by record, clock steps, and chunks with their indexes. */
  datatype Piece =
    | Held(inner: Inner)
    | Stepped(step: ClockStep)
    | Whole(group: Group)

  function AllHeld(contents: seq<Inner>): (pieces: seq<Piece>)
    ensures |pieces| == |contents| && forall i :: 0 <= i < |contents| ==> pieces[i] == Held(contents[i])
  {
    seq(|contents|, i requires 0 <= i < |contents| => Held(contents[i]))
  }

  /** A chunk with index records stays whole, unless it is the last of a file cut short. */
  function PiecesOf(g: Group, opens: bool): seq<Piece> {
    match g
    case ChunkGroup(_, _, _, contents, marks) =>
      if opens || |marks| == 0 then AllHeld(contents) else [Whole(g)]
    case Single(Placed(offset, record)) =>
      match record
      case Message(time, channel) => [Held(InnerMessage(time, channel))]
      case Channel(id, topic) => [Held(InnerChannel(id, topic))]
      case Metadata(name, stepNs) =>
        if name == "clock_step" && stepNs.Some? then [Stepped(ClockStep(offset, stepNs.value))] else []
      case _ => []
  }

  function FilePieces(groups: seq<Group>, cutShort: bool): seq<Piece> {
    if |groups| == 0 then []
    else FilePieces(groups[..|groups| - 1], false) + PiecesOf(groups[|groups| - 1], cutShort)
  }

  datatype Item =
    | MessageItem(time: nat, channel: nat)
    | StepItem(step: ClockStep)
    | ChunkItem(chunk: ChunkIndex)

  function ItemsOf(entry: Entry): seq<Item> {
    match entry
    case StepEntry(step) => [StepItem(step)]
    case ChunkEntry(chunk) => [ChunkItem(chunk)]
    case MessagesEntry(times) =>
      seq(|times|, i requires 0 <= i < |times| => MessageItem(times[i].0, times[i].1))
  }

  /** The entries' items in order. */
  function Items(entries: seq<Entry>): seq<Item> {
    if |entries| == 0 then [] else Items(entries[..|entries| - 1]) + ItemsOf(entries[|entries| - 1])
  }

  // ---------------------------------------------------------------- telling

  /** The index has, for each channel and for no other, the place of its last index record. */
  ghost predicate Locates(offsets: map<nat, nat>, marks: seq<Mark>) {
    && (forall mark <- marks :: mark.channel in offsets)
    && (forall channel <- offsets ::
          exists i: nat :: LastMark(marks, channel, i) && offsets[channel] == marks[i].offset)
  }

  predicate LastMark(marks: seq<Mark>, channel: nat, i: nat) {
    && i < |marks| && marks[i].channel == channel
    && forall j :: i < j < |marks| ==> marks[j].channel != channel
  }

  ghost predicate Tells(item: Item, piece: Piece) {
    match item
    case MessageItem(time, channel) => piece == Held(InnerMessage(time, channel))
    case StepItem(step) => piece == Stepped(step)
    case ChunkItem(chunk) =>
      && piece.Whole? && piece.group.ChunkGroup?
      && chunk.offset == piece.group.offset
      && chunk.startTime == piece.group.startTime && chunk.endTime == piece.group.endTime
      && Locates(chunk.indexOffsets, piece.group.marks)
  }

  predicate Increasing(at: seq<nat>) {
    forall j, k :: 0 <= j < k < |at| ==> at[j] < at[k]
  }

  /** The items tell of the pieces at `at`, in order, and what is nowhere told of is no
      message, no step and no chunk. */
  ghost predicate Listing(items: seq<Item>, pieces: seq<Piece>, at: seq<nat>) {
    && |at| == |items| && Increasing(at)
    && (forall k :: 0 <= k < |at| ==> at[k] < |pieces| && Tells(items[k], pieces[at[k]]))
    && (forall i: nat :: i < |pieces| && i !in at ==> pieces[i].Held? && !pieces[i].inner.InnerMessage?)
  }

  function Shift(at: seq<nat>, offset: nat): (r: seq<nat>)
    ensures |r| == |at| && forall k :: 0 <= k < |at| ==> r[k] == at[k] + offset
  {
    seq(|at|, k requires 0 <= k < |at| => at[k] + offset)
  }

  lemma ListingConcat(items: seq<Item>, pieces: seq<Piece>, at: seq<nat>, items': seq<Item>, pieces': seq<Piece>,
                      at': seq<nat>)
    requires Listing(items, pieces, at) && Listing(items', pieces', at')
    ensures Listing(items + items', pieces + pieces', at + Shift(at', |pieces|))
  {
    hide Tells;
    var both := at + Shift(at', |pieces|);
    forall i: nat | i < |pieces + pieces'| && i !in both
      ensures (pieces + pieces')[i].Held? && !(pieces + pieces')[i].inner.InnerMessage?
    {
      if i < |pieces| {
        assert i !in at by {
          assert forall k :: 0 <= k < |at| ==> both[k] == at[k];
        }
      } else {
        assert i - |pieces| !in at' by {
          assert forall k :: 0 <= k < |at'| ==> both[|at| + k] == at'[k] + |pieces|;
        }
      }
    }
  }

  // ---------------------------------------------------------------- chunks

  lemma ItemsOfMore(times: seq<Stamp>, time: nat, channel: nat)
    ensures ItemsOf(MessagesEntry(times + [(time, channel)]))
         == ItemsOf(MessagesEntry(times)) + [MessageItem(time, channel)]
    ensures ItemsOf(MessagesEntry([(time, channel)])) == [MessageItem(time, channel)]
  {
  }

  /** What an opened chunk tells: its messages in order. */
  lemma {:induction false} OpenedTells(contents: seq<Inner>) returns (at: seq<nat>)
    ensures Listing(ItemsOf(MessagesEntry(TimesInside(contents))), AllHeld(contents), at)
  {
    hide Listing, Tells, ItemsOf;
    if |contents| == 0 {
      at := [];
      NoMessagesTold();
    } else {
      var n := |contents| - 1;
      var before := OpenedTells(contents[..n]);
      var items := ItemsOf(MessagesEntry(TimesInside(contents[..n])));
      var last := [Held(contents[n])];
      assert AllHeld(contents) == AllHeld(contents[..n]) + last;
      match contents[n] {
        case InnerMessage(time, channel) =>
          ItemsOfMore(TimesInside(contents[..n]), time, channel);
          MessageHeld(time, channel);
          ListingConcat(items, AllHeld(contents[..n]), before, [MessageItem(time, channel)], last, [0]);
          at := before + Shift([0], n);
        case _ =>
          NotTold(contents[n]);
          ListingConcat(items, AllHeld(contents[..n]), before, [], last, []);
          assert items + [] == items;
          at := before + Shift([], n);
      }
    }
  }

  lemma NoMessagesTold()
    ensures Listing(ItemsOf(MessagesEntry([])), AllHeld([]), [])
  {
  }

  lemma MessageHeld(time: nat, channel: nat)
    ensures Listing([MessageItem(time, channel)], [Held(InnerMessage(time, channel))], [0])
  {
  }

  lemma NotTold(inner: Inner)
    requires !inner.InnerMessage?
    ensures Listing([], [Held(inner)], [])
  {
  }

  /** The chunk that a scan opens is told of by one entry with exactly its messages, in order. */
  lemma OpenedChunkTells(s: ScanState, expand: bool) returns (at: seq<nat>)
    requires s.chunk.Some? && (expand || s.chunk.value.index.indexOffsets == map[])
    ensures var t := Flushed(s, expand);
            && |t.entries| == |s.entries| + 1 && t.entries[..|s.entries|] == s.entries
            && t.entries[|s.entries|].MessagesEntry?
            && Listing(ItemsOf(t.entries[|s.entries|]), AllHeld(s.chunk.value.contents), at)
  {
    at := OpenedTells(s.chunk.value.contents);
  }

  lemma {:induction false} OffsetsLocate(marks: seq<Mark>)
    ensures Locates(OffsetsOf(marks), marks)
  {
    if |marks| > 0 {
      var n := |marks| - 1;
      OffsetsLocate(marks[..n]);
      var before, offsets := OffsetsOf(marks[..n]), OffsetsOf(marks);
      assert forall mark <- marks :: mark in marks[..n] || mark == marks[n];
      forall channel | channel in offsets
        ensures exists i: nat :: LastMark(marks, channel, i) && offsets[channel] == marks[i].offset
      {
        if channel == marks[n].channel {
          assert LastMark(marks, channel, n);
        } else {
          var i: nat :| LastMark(marks[..n], channel, i) && before[channel] == marks[..n][i].offset;
          assert LastMark(marks, channel, i);
        }
      }
    }
  }

  // ---------------------------------------------------------------- groups

  lemma ItemsMore(entries: seq<Entry>, entry: Entry)
    ensures Items(entries + [entry]) == Items(entries) + ItemsOf(entry)
  {
    assert (entries + [entry])[..|entries|] == entries;
  }

  /** What a message outside the chunks, told of at the end of the last entry or in one of its own, adds. */
  lemma MessageTold(s: ScanState, time: nat, channel: nat)
    ensures Items(AddMessage(s, time, channel).entries) == Items(s.entries) + [MessageItem(time, channel)]
  {
    hide Items, ItemsOf, Bump;
    var n := |s.entries|;
    if n > 0 && s.entries[n - 1].MessagesEntry? {
      var times := s.entries[n - 1].times;
      assert s.entries == s.entries[..n - 1] + [s.entries[n - 1]];
      ItemsMore(s.entries[..n - 1], s.entries[n - 1]);
      ItemsMore(s.entries[..n - 1], MessagesEntry(times + [(time, channel)]));
      ItemsOfMore(times, time, channel);
    } else {
      ItemsMore(s.entries, MessagesEntry([(time, channel)]));
      ItemsOfMore([], time, channel);
    }
  }

  lemma ChunkTold(s: ScanState, g: Group, expand: bool) returns (items: seq<Item>, at: seq<nat>)
    requires g.ChunkGroup?
    ensures Items(Flushed(s.(chunk := Some(PendingOf(g))), expand).entries) == Items(s.entries) + items
    ensures Listing(items, PiecesOf(g, expand), at)
  {
    var pending := s.(chunk := Some(PendingOf(g)));
    var t := Flushed(pending, expand);
    SameChannels(g.marks);
    if expand || |g.marks| == 0 {
      at := OpenedChunkTells(pending, expand);
      items := ItemsOf(t.entries[|s.entries|]);
      assert t.entries == s.entries + [t.entries[|s.entries|]];
      ItemsMore(s.entries, t.entries[|s.entries|]);
    } else {
      OffsetsLocate(g.marks);
      items, at := [ChunkItem(IndexOf(g))], [0];
      assert Tells(items[0], Whole(g));
      ItemsMore(s.entries, ChunkEntry(IndexOf(g)));
    }
  }

  lemma StepTold(s: ScanState, offset: nat, name: string, stepNs: Option<int>) returns (items: seq<Item>)
    ensures Items(AddMetadata(s, offset, name, stepNs).entries) == Items(s.entries) + items
    ensures items == if name == "clock_step" && stepNs.Some? then [StepItem(ClockStep(offset, stepNs.value))] else []
  {
    items := [];
    if name == "clock_step" && stepNs.Some? {
      items := [StepItem(ClockStep(offset, stepNs.value))];
      ItemsMore(s.entries, StepEntry(ClockStep(offset, stepNs.value)));
    }
  }

  /** One item tells of one piece. */
  lemma ListingOne(item: Item, piece: Piece)
    ensures Tells(item, piece) ==> Listing([item], [piece], [0])
  {
  }

  lemma NothingListed()
    ensures Listing([], [], [])
  {
  }

  lemma SingleTold(s: ScanState, g: Group) returns (items: seq<Item>, at: seq<nat>)
    requires g.Single? && ValidGroup(g) && s.chunk == None
    ensures Items(AddGroup(s, g).entries) == Items(s.entries) + items
    ensures Listing(items, PiecesOf(g, false), at)
  {
    hide Listing, Items, AddMessage, AddMetadata;
    items, at := [], [];
    NothingListed();
    assert Flushed(s, false) == s;
    match g.placed.record
    case Message(time, channel) =>
      MessageTold(s, time, channel);
      items, at := [MessageItem(time, channel)], [0];
      MessageHeld(time, channel);
    case Metadata(name, stepNs) =>
      items := StepTold(s, g.placed.offset, name, stepNs);
      var step := ClockStep(g.placed.offset, if stepNs.Some? then stepNs.value else 0);
      at := if items == [] then [] else [0];
      ListingOne(StepItem(step), Stepped(step));
    case Channel(id, topic) => NotTold(InnerChannel(id, topic));
    case _ =>
  }

  lemma {:induction false} GroupsTold(groups: seq<Group>) returns (at: seq<nat>)
    requires ValidLayout(groups)
    ensures Listing(Items(Settled(groups).entries), FilePieces(groups, false), at)
  {
    if |groups| == 0 {
      at := [];
    } else {
      var n := |groups| - 1;
      ScanGroups(groups[..n]);
      var before := GroupsTold(groups[..n]);
      at := GroupTold(Settled(groups[..n]), groups[n], FilePieces(groups[..n], false), before);
    }
  }

  lemma GroupTold(s: ScanState, g: Group, pieces: seq<Piece>, before: seq<nat>) returns (at: seq<nat>)
    requires ValidGroup(g) && s.chunk == None && Listing(Items(s.entries), pieces, before)
    ensures Listing(Items(AddGroup(s, g).entries), pieces + PiecesOf(g, false), at)
  {
    hide Listing, Items, PiecesOf, Flushed, ScanRecord;
    var items, more;
    if g.ChunkGroup? {
      items, more := ChunkTold(s, g, false);
    } else {
      items, more := SingleTold(s, g);
    }
    at := before + Shift(more, |pieces|);
    ListingConcat(Items(s.entries), pieces, before, items, PiecesOf(g, false), more);
  }

  /** The entries of a scan tell, in the file's order, exactly of the messages outside the
      compressed chunks, the clock steps, and the chunks that stay compressed. */
  lemma ScanTells(groups: seq<Group>, rest: seq<Placed>) returns (at: seq<nat>)
    requires ValidLayout(groups) && (|rest| > 0 ==> EndsData(rest[0].record))
    ensures Listing(Items(Scanned(Records(groups) + rest).entries), FilePieces(groups, |rest| == 0), at)
  {
    if |rest| > 0 {
      ScannedComplete(groups, rest);
      at := GroupsTold(groups);
    } else {
      hide Listing, Items, PiecesOf, Flushed, ScanRecord;
      ScannedCutShort(groups);
      assert Records(groups) + rest == Records(groups);
      if |groups| > 0 && groups[|groups| - 1].ChunkGroup? {
        var n := |groups| - 1;
        var before := GroupsTold(groups[..n]);
        var items, more := ChunkTold(Settled(groups[..n]), groups[n], true);
        at := before + Shift(more, |FilePieces(groups[..n], false)|);
        ListingConcat(Items(Settled(groups[..n]).entries), FilePieces(groups[..n], false), before,
                      items, PiecesOf(groups[n], true), more);
      } else {
        at := GroupsTold(groups);
        SameUncut(groups);
      }
    }
  }

  lemma SameUncut(groups: seq<Group>)
    requires |groups| > 0 ==> groups[|groups| - 1].Single?
    ensures FilePieces(groups, true) == FilePieces(groups, false)
  {
  }

  // ---------------------------------------------------------------- what is counted and declared

  /** The places of a channel's messages among a chunk's records. */
  function MessagePlaces(contents: seq<Inner>, channel: nat): set<nat> {
    set i: nat | i < |contents| && contents[i].InnerMessage? && contents[i].channel == channel
  }

  /** Opening a chunk adds to each channel's count the number of its messages there. */
  lemma {:induction false} InsideCounted(counts: map<nat, nat>, contents: seq<Inner>, channel: nat)
    ensures CountOf(CountInside(counts, contents), channel)
         == CountOf(counts, channel) + |MessagePlaces(contents, channel)|
    ensures channel in CountInside(counts, contents) <==>
              channel in counts || |MessagePlaces(contents, channel)| > 0
  {
    if |contents| == 0 {
      assert MessagePlaces(contents, channel) == {};
    } else {
      InsideCounted(counts, contents[..|contents| - 1], channel);
      hide MessagePlaces;
      PlacesMore(contents, channel);
    }
  }

  lemma PlacesMore(contents: seq<Inner>, channel: nat)
    requires |contents| > 0
    ensures var n := |contents| - 1;
            |MessagePlaces(contents, channel)| == |MessagePlaces(contents[..n], channel)|
              + if contents[n].InnerMessage? && contents[n].channel == channel then 1 else 0
  {
    var n := |contents| - 1;
    var more := if contents[n].InnerMessage? && contents[n].channel == channel then {n} else {};
    assert MessagePlaces(contents, channel) == MessagePlaces(contents[..n], channel) + more;
  }

  /** The channel's last declaration among a chunk's records, if any. */
  predicate LastDeclared(contents: seq<Inner>, i: nat, channel: nat) {
    && i < |contents| && contents[i].InnerChannel? && contents[i].id == channel
    && forall j :: i < j < |contents| ==> !(contents[j].InnerChannel? && contents[j].id == channel)
  }

  /** Opening a chunk declares each channel as its last declaration there does, and leaves
      the channels not declared there alone. */
  lemma {:induction false} InsideDeclared(topics: map<nat, string>, contents: seq<Inner>, channel: nat)
    returns (last: Option<nat>)
    ensures match last
            case Some(i) =>
              && LastDeclared(contents, i, channel)
              && channel in Declare(topics, contents) && Declare(topics, contents)[channel] == contents[i].topic
            case None =>
              && (forall i :: 0 <= i < |contents| ==> !(contents[i].InnerChannel? && contents[i].id == channel))
              && (channel in Declare(topics, contents) <==> channel in topics)
              && (channel in topics ==> Declare(topics, contents)[channel] == topics[channel])
  {
    if |contents| == 0 {
      last := None;
    } else {
      var n := |contents| - 1;
      last := InsideDeclared(topics, contents[..n], channel);
      if contents[n].InnerChannel? && contents[n].id == channel {
        last := Some(n);
      }
    }
  }

  function ChannelCounts(marks: seq<Mark>, channel: nat): (counts: seq<nat>)
    ensures |counts| == |marks|
    ensures forall i :: 0 <= i < |marks| ==> counts[i] == if marks[i].channel == channel then marks[i].count else 0
  {
    seq(|marks|, i requires 0 <= i < |marks| => if marks[i].channel == channel then marks[i].count else 0)
  }

  /** A chunk's index records count for a channel what all of them for it say together. */
  lemma {:induction false} MarksCounted(marks: seq<Mark>, channel: nat)
    ensures CountOf(CountsOf(marks), channel) == Sum(ChannelCounts(marks, channel))
  {
    if |marks| > 0 {
      MarksCounted(marks[..|marks| - 1], channel);
      assert ChannelCounts(marks, channel)[..|marks| - 1] == ChannelCounts(marks[..|marks| - 1], channel);
    }
  }

  // ---------------------------------------------------------------- what is fed

  predicate AllMessages(items: seq<Item>) {
    forall item <- items :: item.MessageItem?
  }

  function Times(items: seq<Item>): (times: seq<Stamp>)
    requires AllMessages(items)
    ensures |times| == |items|
    ensures forall k :: 0 <= k < |items| ==> times[k] == (items[k].time, items[k].channel)
  {
    seq(|items|, k requires 0 <= k < |items| => (items[k].time, items[k].channel))
  }

  predicate OnlyMessages(entries: seq<Entry>) {
    forall entry <- entries :: entry.MessagesEntry?
  }

  lemma {:induction false} FedOneMore(indexes: Indexes, f: Feeding, entries: seq<Entry>, times: seq<Stamp>)
    requires OnlyMessages(entries)
    ensures FeedAll(indexes, f, entries + [MessagesEntry(times)]) == PushPoints(FeedAll(indexes, f, entries), times)
    decreases |entries|
  {
    hide PushPoints;
    var more := entries + [MessagesEntry(times)];
    if |entries| == 0 {
      assert more == [MessagesEntry(times)] && more[1..] == [];
    } else {
      assert more[0] == entries[0] && more[1..] == entries[1..] + [MessagesEntry(times)];
      assert entries[0] in entries && more[1].MessagesEntry?;
      assert !TakesNext(more) && !TakesNext(entries);
      FedOneMore(indexes, FeedEntry(indexes, f, entries), entries[1..], times);
    }
  }

  lemma TimesConcat(a: seq<Item>, b: seq<Item>)
    requires AllMessages(a + b)
    ensures AllMessages(a) && AllMessages(b) && Times(a + b) == Times(a) + Times(b)
  {
    assert forall k :: 0 <= k < |a| ==> (a + b)[k] == a[k];
    assert forall k :: 0 <= k < |b| ==> (a + b)[|a| + k] == b[k];
  }

  lemma EntryTimes(entry: Entry)
    requires AllMessages(ItemsOf(entry))
    ensures entry.MessagesEntry? && Times(ItemsOf(entry)) == entry.times
  {
    assert |ItemsOf(entry)| > 0 ==> ItemsOf(entry)[0] in ItemsOf(entry);
  }

  lemma LastTimes(front: seq<Entry>, last: Entry)
    requires AllMessages(Items(front + [last]))
    ensures last.MessagesEntry? && AllMessages(Items(front))
    ensures Times(Items(front + [last])) == Times(Items(front)) + last.times
  {
    hide AllMessages, Items, ItemsOf;
    ItemsMore(front, last);
    TimesConcat(Items(front), ItemsOf(last));
    EntryTimes(last);
  }

  /** Entries that tell of messages alone are fed message by message. */
  lemma {:induction false} MessagesFed(indexes: Indexes, f: Feeding, entries: seq<Entry>)
    requires AllMessages(Items(entries))
    ensures OnlyMessages(entries)
    ensures FeedAll(indexes, f, entries) == PushPoints(f, Times(Items(entries)))
  {
    hide FeedAll, Items, AllMessages;
    if |entries| == 0 {
      NothingFed(indexes, f);
    } else {
      var n := |entries| - 1;
      var front, last := entries[..n], entries[n];
      assert entries == front + [last];
      LastTimes(front, last);
      MessagesFed(indexes, f, front);
      FedOneMore(indexes, f, front, last.times);
      PushPointsConcat(f, Times(Items(front)), last.times);
    }
  }

  lemma NothingFed(indexes: Indexes, f: Feeding)
    ensures AllMessages(Items([])) && FeedAll(indexes, f, []) == PushPoints(f, Times(Items([])))
  {
  }

  /** Neither clock steps nor chunks that stay compressed. */
  predicate Plain(pieces: seq<Piece>) {
    forall piece <- pieces :: piece.Held?
  }

  /** A file without clock steps and compressed chunks is fed message by message: exactly
      its messages, in its order, in and outside its chunks. */
  lemma PlainFileFed(groups: seq<Group>, rest: seq<Placed>, indexes: Indexes, f: Feeding)
    returns (times: seq<Stamp>, at: seq<nat>)
    requires ValidLayout(groups) && (|rest| > 0 ==> EndsData(rest[0].record))
    requires Plain(FilePieces(groups, |rest| == 0))
    ensures FeedAll(indexes, f, Scanned(Records(groups) + rest).entries) == PushPoints(f, times)
    ensures var pieces := FilePieces(groups, |rest| == 0);
            && |at| == |times| && Increasing(at)
            && (forall k :: 0 <= k < |at| ==>
                at[k] < |pieces| && pieces[at[k]] == Held(InnerMessage(times[k].0, times[k].1)))
            && (forall i: nat :: i < |pieces| && pieces[i].inner.InnerMessage? ==> i in at)
  {
    hide Items, FilePieces, PushPoints, FeedAll;
    var entries, pieces := Scanned(Records(groups) + rest).entries, FilePieces(groups, |rest| == 0);
    at := ScanTells(groups, rest);
    forall k | 0 <= k < |at|
      ensures Items(entries)[k].MessageItem?
    {
      assert pieces[at[k]] in pieces;
      assert Tells(Items(entries)[k], pieces[at[k]]);
    }
    times := Times(Items(entries));
    MessagesFed(indexes, f, entries);
    forall k | 0 <= k < |at|
      ensures at[k] < |pieces| && pieces[at[k]] == Held(InnerMessage(times[k].0, times[k].1))
    {
      assert Tells(Items(entries)[k], pieces[at[k]]);
    }
  }

  // ---------------------------------------------------------------- what is listed of a plain file

  function Inners(pieces: seq<Piece>): (inners: seq<Inner>)
    requires Plain(pieces)
    ensures |inners| == |pieces| && forall i :: 0 <= i < |pieces| ==> pieces[i] == Held(inners[i])
  {
    assert forall i :: 0 <= i < |pieces| ==> pieces[i] in pieces;
    seq(|pieces|, i requires 0 <= i < |pieces| => pieces[i].inner)
  }

  lemma {:induction false} InsideConcat(topics: map<nat, string>, counts: map<nat, nat>, a: seq<Inner>, b: seq<Inner>)
    ensures Declare(topics, a + b) == Declare(Declare(topics, a), b)
    ensures CountInside(counts, a + b) == CountInside(CountInside(counts, a), b)
  {
    if |b| == 0 {
      assert a + b == a;
    } else {
      var n := |b| - 1;
      assert (a + b)[..|a| + n] == a + b[..n] && (a + b)[|a| + n] == b[n];
      InsideConcat(topics, counts, a, b[..n]);
    }
  }

  /** What recording a plain group adds to the topics and counts. */
  lemma PlainGroup(s: ScanState, g: Group, expand: bool)
    requires ValidGroup(g) && s.chunk == None && Plain(PiecesOf(g, expand)) && (expand ==> g.ChunkGroup?)
    ensures var t := if expand then Flushed(s.(chunk := Some(PendingOf(g))), true) else AddGroup(s, g);
            && t.topics == Declare(s.topics, Inners(PiecesOf(g, expand)))
            && t.counts == CountInside(s.counts, Inners(PiecesOf(g, expand)))
  {
    var pieces := PiecesOf(g, expand);
    var inners := Inners(pieces);
    assert |pieces| > 0 ==> pieces[0] in pieces && pieces[0].Held?;
    match g
    case ChunkGroup(_, _, _, contents, marks) =>
      SameChannels(marks);
      assert inners == contents;
    case Single(Placed(offset, record)) =>
      if |inners| > 0 {
        OneInside(s.topics, s.counts, inners[0]);
        assert inners == [inners[0]];
      }
  }

  lemma OneInside(topics: map<nat, string>, counts: map<nat, nat>, inner: Inner)
    ensures Declare(topics, [inner]) == if inner.InnerChannel? then topics[inner.id := inner.topic] else topics
    ensures CountInside(counts, [inner]) == if inner.InnerMessage? then Bump(counts, inner.channel, 1) else counts
  {
    assert [inner][..0] == [];
  }

  lemma PlainConcat(a: seq<Piece>, b: seq<Piece>)
    requires Plain(a + b)
    ensures Plain(a) && Plain(b) && Inners(a + b) == Inners(a) + Inners(b)
  {
    assert forall i :: 0 <= i < |a| ==> (a + b)[i] == a[i];
    assert forall i :: 0 <= i < |b| ==> (a + b)[|a| + i] == b[i];
  }

  lemma {:induction false} PlainGroups(groups: seq<Group>)
    requires ValidLayout(groups) && Plain(FilePieces(groups, false))
    ensures var s, inners := Settled(groups), Inners(FilePieces(groups, false));
            s.topics == Declare(map[], inners) && s.counts == CountInside(map[], inners)
  {
    hide PiecesOf, AddGroup, Plain;
    if |groups| > 0 {
      var n := |groups| - 1;
      var before, last := FilePieces(groups[..n], false), PiecesOf(groups[n], false);
      PlainConcat(before, last);
      PlainGroups(groups[..n]);
      ScanGroups(groups[..n]);
      PlainGroup(Settled(groups[..n]), groups[n], false);
      InsideConcat(map[], map[], Inners(before), Inners(last));
    }
  }

  lemma PlainScanned(groups: seq<Group>, rest: seq<Placed>)
    requires ValidLayout(groups) && (|rest| > 0 ==> EndsData(rest[0].record))
    requires Plain(FilePieces(groups, |rest| == 0))
    ensures var s, inners := Scanned(Records(groups) + rest), Inners(FilePieces(groups, |rest| == 0));
            s.topics == Declare(map[], inners) && s.counts == CountInside(map[], inners)
  {
    hide PiecesOf, AddGroup, Plain, Declare, CountInside, Flushed;
    if |rest| > 0 {
      ScannedComplete(groups, rest);
      PlainGroups(groups);
    } else {
      ScannedCutShort(groups);
      assert Records(groups) + rest == Records(groups);
      if |groups| > 0 && groups[|groups| - 1].ChunkGroup? {
        var n := |groups| - 1;
        var before, last := FilePieces(groups[..n], false), PiecesOf(groups[n], true);
        PlainConcat(before, last);
        PlainGroups(groups[..n]);
        ScanGroups(groups[..n]);
        PlainGroup(Settled(groups[..n]), groups[n], true);
        InsideConcat(map[], map[], Inners(before), Inners(last));
      } else {
        SameUncut(groups);
        PlainGroups(groups);
      }
    }
  }

  /** Of a file without clock steps and compressed chunks a channel is known by its last
      declaration, in or outside the chunks, and counted with exactly its messages. */
  lemma PlainFileListed(groups: seq<Group>, rest: seq<Placed>, channel: nat) returns (last: Option<nat>)
    requires ValidLayout(groups) && (|rest| > 0 ==> EndsData(rest[0].record))
    requires Plain(FilePieces(groups, |rest| == 0))
    ensures var s, inners := Scanned(Records(groups) + rest), Inners(FilePieces(groups, |rest| == 0));
            && CountOf(s.counts, channel) == |MessagePlaces(inners, channel)|
            && match last
               case Some(i) =>
                 && LastDeclared(inners, i, channel)
                 && channel in s.topics && s.topics[channel] == inners[i].topic
               case None =>
                 && channel !in s.topics
                 && forall i :: 0 <= i < |inners| ==> !(inners[i].InnerChannel? && inners[i].id == channel)
  {
    hide FilePieces, Scanned, Declare, CountInside;
    PlainScanned(groups, rest);
    var inners := Inners(FilePieces(groups, |rest| == 0));
    InsideCounted(map[], inners, channel);
    last := InsideDeclared(map[], inners, channel);
  }
}
