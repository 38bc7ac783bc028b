/** What the message indexes say about chunks that stay compressed: a chunk's
    messages in recording order, and a channel's extent over several chunks. */
module MessageIndexes {
  import opened Spans
  import opened Leak
  import opened Feed

  /** A MessageIndex record: for each message of one channel its offset in the
      chunk and its log time. */
  datatype IndexRecord = IndexRecord(channel: nat, records: seq<(nat, nat)>)

  /** The MessageIndex record at a file offset, when there is a readable one. */
  type Reader = nat -> Option<IndexRecord>

  /** Offset in the chunk, log time, channel. */
  type Placing = (nat, nat, nat)

  /** Channel ids have 16 bits. */
  const CHANNEL_LIMIT := 0x1_0000

  // ---------------------------------------------------------------- ordering

  predicate PlacedBefore(a: Placing, b: Placing) {
    a.0 < b.0 || (a.0 == b.0 && (a.1 < b.1 || (a.1 == b.1 && a.2 <= b.2)))
  }

  predicate InOrder(s: seq<Placing>) {
    forall i, j :: 0 <= i < j < |s| ==> PlacedBefore(s[i], s[j])
  }

  function Insert(s: seq<Placing>, x: Placing): (r: seq<Placing>)
    ensures multiset(r) == multiset(s) + multiset{x}
  {
    if |s| == 0 || PlacedBefore(s[|s| - 1], x) then s + [x]
    else
      assert s == s[..|s| - 1] + [s[|s| - 1]];
      Insert(s[..|s| - 1], x) + [s[|s| - 1]]
  }

  function Sort(s: seq<Placing>): (r: seq<Placing>)
    ensures multiset(r) == multiset(s)
  {
    if |s| == 0 then []
    else
      assert s == s[..|s| - 1] + [s[|s| - 1]];
      Insert(Sort(s[..|s| - 1]), s[|s| - 1])
  }

  lemma {:induction false} InsertInOrder(s: seq<Placing>, x: Placing)
    requires InOrder(s)
    ensures InOrder(Insert(s, x))
  {
    if |s| > 0 && !PlacedBefore(s[|s| - 1], x) {
      var inner := Insert(s[..|s| - 1], x);
      InsertInOrder(s[..|s| - 1], x);
      assert multiset(inner) == multiset(s[..|s| - 1]) + multiset{x};
      forall i | 0 <= i < |inner|
        ensures PlacedBefore(inner[i], s[|s| - 1])
      {
        assert inner[i] in multiset(inner);
        assert inner[i] == x || inner[i] in s[..|s| - 1];
      }
    }
  }

  lemma {:induction false} SortInOrder(s: seq<Placing>)
    ensures InOrder(Sort(s))
  {
    if |s| > 0 {
      SortInOrder(s[..|s| - 1]);
      InsertInOrder(Sort(s[..|s| - 1]), s[|s| - 1]);
    }
  }

  lemma SameLast(a: seq<Placing>, b: seq<Placing>)
    requires InOrder(a) && InOrder(b) && multiset(a) == multiset(b) && |a| == |b| > 0
    ensures a[|a| - 1] == b[|b| - 1]
  {
    hide InOrder;
    var n := |a| - 1;
    assert b[n] in a by {
      assert b[n] in multiset(a);
    }
    assert a[n] in b by {
      assert a[n] in multiset(b);
    }
    LastOfOrder(a, b[n]);
    LastOfOrder(b, a[n]);
  }

  lemma DropLast(s: seq<Placing>)
    requires |s| > 0
    ensures multiset(s[..|s| - 1]) == multiset(s) - multiset{s[|s| - 1]}
  {
    assert s == s[..|s| - 1] + [s[|s| - 1]];
  }

  /** The order leaves no choice: permutations of each other in order are equal. */
  lemma {:induction false} OneOrder(a: seq<Placing>, b: seq<Placing>)
    requires InOrder(a) && InOrder(b) && multiset(a) == multiset(b)
    ensures a == b
  {
    assert |a| == |multiset(a)| == |multiset(b)| == |b|;
    if |a| > 0 {
      var n := |a| - 1;
      SameLast(a, b);
      DropLast(a);
      DropLast(b);
      OneOrder(a[..n], b[..n]);
      assert a == a[..n] + [a[n]] && b == b[..n] + [b[n]];
    }
  }

  lemma LastOfOrder(s: seq<Placing>, x: Placing)
    requires InOrder(s) && x in s
    ensures x == s[|s| - 1] || PlacedBefore(x, s[|s| - 1])
  {
  }

  // ---------------------------------------------------------------- a chunk's messages

  function PlacingsOf(index: IndexRecord): (r: seq<Placing>)
    ensures |r| == |index.records|
    ensures forall i :: 0 <= i < |r| ==> r[i] == (index.records[i].0, index.records[i].1, index.channel)
  {
    seq(|index.records|, i requires 0 <= i < |index.records| => (index.records[i].0, index.records[i].1, index.channel))
  }

  /** Everything the chunk's indexes for channels below `n` hold, by channel. */
  function Gather(read: Reader, offsets: map<nat, nat>, n: nat): Option<seq<Placing>> {
    if n == 0 then Some([])
    else match Gather(read, offsets, n - 1)
      case None => None
      case Some(before) =>
        if n - 1 !in offsets then Some(before)
        else match read(offsets[n - 1])
          case None => None
          case Some(index) => Some(before + PlacingsOf(index))
  }

  function Stamps(s: seq<Placing>): (r: seq<Stamp>)
    ensures |r| == |s|
    ensures forall i :: 0 <= i < |s| ==> r[i] == (s[i].1, s[i].2)
  {
    seq(|s|, i requires 0 <= i < |s| => (s[i].1, s[i].2))
  }

  function MessageTimes(read: Reader, chunk: ChunkIndex): Option<seq<Stamp>> {
    match Gather(read, chunk.indexOffsets, CHANNEL_LIMIT)
    case None => None
    case Some(gathered) => if gathered == [] then None else Some(Stamps(Sort(gathered)))
  }

  /** The lookup as it runs. */
  method ChunkMessageTimes(read: Reader, chunk: ChunkIndex) returns (times: Option<seq<Stamp>>)
    ensures times == MessageTimes(read, chunk)
  {
    var entries: seq<Placing> := [];
    for channel := 0 to CHANNEL_LIMIT
      invariant Gather(read, chunk.indexOffsets, channel) == Some(entries)
    {
      if channel in chunk.indexOffsets {
        var index := read(chunk.indexOffsets[channel]);
        if index == None {
          GatherFails(read, chunk.indexOffsets, channel + 1, CHANNEL_LIMIT);
          return None;
        }
        entries := entries + PlacingsOf(index.value);
      }
    }
    if entries == [] {
      return None;
    }
    times := Some(Stamps(Sort(entries)));
  }

  lemma {:induction false} GatherFails(read: Reader, offsets: map<nat, nat>, n: nat, m: nat)
    requires n <= m && Gather(read, offsets, n) == None
    ensures Gather(read, offsets, m) == None
    decreases m - n
  {
    if n < m {
      GatherFails(read, offsets, n + 1, m);
    }
  }

  /** The messages of a chunk, as they lie in it, of the channels below `n`. */
  function Below(messages: seq<Placing>, n: nat): seq<Placing> {
    if |messages| == 0 then []
    else
      var before := Below(messages[..|messages| - 1], n);
      var last := messages[|messages| - 1];
      if last.2 < n then before + [last] else before
  }

  /** The messages of one channel. */
  function Of(messages: seq<Placing>, channel: nat): seq<Placing> {
    if |messages| == 0 then []
    else
      var before := Of(messages[..|messages| - 1], channel);
      var last := messages[|messages| - 1];
      if last.2 == channel then before + [last] else before
  }

  /** The chunk's indexes tell the truth: each channel's holds that channel's
      messages, in any order, and channels without an index have none. */
  ghost predicate TruthfulIndexes(read: Reader, chunk: ChunkIndex, messages: seq<Placing>) {
    && (forall i :: 0 <= i < |messages| ==> messages[i].2 < CHANNEL_LIMIT)
    && (forall c: nat :: c !in chunk.indexOffsets ==> Of(messages, c) == [])
    && (forall c <- chunk.indexOffsets ::
          var index := read(chunk.indexOffsets[c]);
          index.Some? && index.value.channel == c && multiset(PlacingsOf(index.value)) == multiset(Of(messages, c)))
  }

  lemma {:induction false} BelowMore(messages: seq<Placing>, n: nat)
    ensures multiset(Below(messages, n + 1)) == multiset(Below(messages, n)) + multiset(Of(messages, n))
  {
    if |messages| > 0 {
      BelowMore(messages[..|messages| - 1], n);
    }
  }

  lemma {:induction false} BelowNothing(messages: seq<Placing>)
    ensures Below(messages, 0) == []
  {
    if |messages| > 0 {
      BelowNothing(messages[..|messages| - 1]);
    }
  }

  lemma {:induction false} BelowAll(messages: seq<Placing>, n: nat)
    requires forall i :: 0 <= i < |messages| ==> messages[i].2 < n
    ensures Below(messages, n) == messages
  {
    if |messages| > 0 {
      BelowAll(messages[..|messages| - 1], n);
    }
  }

  lemma {:induction false} GatherTruthful(read: Reader, chunk: ChunkIndex, messages: seq<Placing>, n: nat)
    requires TruthfulIndexes(read, chunk, messages)
    ensures var gathered := Gather(read, chunk.indexOffsets, n);
            gathered.Some? && multiset(gathered.value) == multiset(Below(messages, n))
  {
    hide Below, Of, PlacingsOf;
    if n == 0 {
      BelowNothing(messages);
    } else {
      GatherTruthful(read, chunk, messages, n - 1);
      BelowMore(messages, n - 1);
    }
  }

  /** A chunk's truthful indexes give back its messages exactly as they lie in it. */
  lemma TimesAreMessages(read: Reader, chunk: ChunkIndex, messages: seq<Placing>)
    requires TruthfulIndexes(read, chunk, messages) && |messages| > 0
    requires forall i, j :: 0 <= i < j < |messages| ==> messages[i].0 < messages[j].0
    ensures MessageTimes(read, chunk) == Some(Stamps(messages))
  {
    hide TruthfulIndexes, Gather, Sort;
    GatherTruthful(read, chunk, messages, CHANNEL_LIMIT);
    assert Below(messages, CHANNEL_LIMIT) == messages by {
      MessagesLimited(read, chunk, messages);
      BelowAll(messages, CHANNEL_LIMIT);
    }
    var gathered := Gather(read, chunk.indexOffsets, CHANNEL_LIMIT).value;
    assert |gathered| == |multiset(gathered)| == |messages|;
    SortInOrder(gathered);
    OneOrder(Sort(gathered), messages);
  }

  lemma MessagesLimited(read: Reader, chunk: ChunkIndex, messages: seq<Placing>)
    requires TruthfulIndexes(read, chunk, messages)
    ensures forall i :: 0 <= i < |messages| ==> messages[i].2 < CHANNEL_LIMIT
  {
  }

  /** The chunk's index records for its channels can all be read. */
  predicate AllReadable(read: Reader, offsets: map<nat, nat>, n: nat) {
    forall c <- offsets :: c < n ==> read(offsets[c]).Some?
  }

  predicate SomeHeld(read: Reader, offsets: map<nat, nat>, n: nat) {
    exists c <- offsets :: c < n && read(offsets[c]).Some? && |read(offsets[c]).value.records| > 0
  }

  lemma {:induction false} GatherKnown(read: Reader, offsets: map<nat, nat>, n: nat)
    ensures Gather(read, offsets, n).Some? <==> AllReadable(read, offsets, n)
    ensures Gather(read, offsets, n).Some? ==> (Gather(read, offsets, n).value != [] <==> SomeHeld(read, offsets, n))
  {
    if n > 0 {
      GatherKnown(read, offsets, n - 1);
      assert AllReadable(read, offsets, n) <==>
             AllReadable(read, offsets, n - 1) && (n - 1 in offsets ==> read(offsets[n - 1]).Some?);
      if SomeHeld(read, offsets, n - 1) {
        var c :| c in offsets && c < n - 1 && read(offsets[c]).Some? && |read(offsets[c]).value.records| > 0;
        assert c < n;
      }
    }
  }

  /** A chunk's messages are known exactly when all its index records can be read and one
      of them holds a message. */
  lemma TimesKnownIff(read: Reader, chunk: ChunkIndex)
    ensures MessageTimes(read, chunk).Some? <==>
              AllReadable(read, chunk.indexOffsets, CHANNEL_LIMIT) && SomeHeld(read, chunk.indexOffsets, CHANNEL_LIMIT)
  {
    hide Gather, AllReadable, SomeHeld;
    GatherKnown(read, chunk.indexOffsets, CHANNEL_LIMIT);
  }

  // ---------------------------------------------------------------- a channel's extent

  function Times(index: IndexRecord): (r: seq<nat>)
    ensures |r| == |index.records|
    ensures forall i :: 0 <= i < |r| ==> r[i] == index.records[i].1
  {
    seq(|index.records|, i requires 0 <= i < |index.records| => index.records[i].1)
  }

  /** The channel's log times in a chunk; none when its index is missing or another's. */
  function TimesIn(read: Reader, chunk: ChunkIndex, channel: nat): Option<seq<nat>> {
    if channel !in chunk.indexOffsets then None
    else match read(chunk.indexOffsets[channel])
      case None => None
      case Some(index) => if index.channel == channel then Some(Times(index)) else None
  }

  function Least(times: seq<nat>): (r: nat)
    requires |times| > 0
    ensures r in times && forall t <- times :: r <= t
  {
    if |times| == 1 then times[0]
    else
      assert times == times[..|times| - 1] + [times[|times| - 1]];
      Min(Least(times[..|times| - 1]), times[|times| - 1])
  }

  function Greatest(times: seq<nat>): (r: nat)
    requires |times| > 0
    ensures r in times && forall t <- times :: t <= r
  {
    if |times| == 1 then times[0]
    else
      assert times == times[..|times| - 1] + [times[|times| - 1]];
      Max(Greatest(times[..|times| - 1]), times[|times| - 1])
  }

  /** The least log time in the first chunk holding any; `Some(None)` when none does. */
  function ExtentStart(read: Reader, chunks: seq<ChunkIndex>, channel: nat): Option<Option<nat>> {
    if |chunks| == 0 then Some(None)
    else match TimesIn(read, chunks[0], channel)
      case None => None
      case Some(times) => if |times| > 0 then Some(Some(Least(times))) else ExtentStart(read, chunks[1..], channel)
  }

  /** The greatest log time in the last chunk holding any. */
  function ExtentEnd(read: Reader, chunks: seq<ChunkIndex>, channel: nat): Option<Option<nat>> {
    if |chunks| == 0 then Some(None)
    else
      var n := |chunks| - 1;
      match TimesIn(read, chunks[n], channel)
      case None => None
      case Some(times) => if |times| > 0 then Some(Some(Greatest(times))) else ExtentEnd(read, chunks[..n], channel)
  }

  function ExtentIn(read: Reader, chunks: seq<ChunkIndex>, channel: nat): Option<Option<Span>> {
    match ExtentStart(read, chunks, channel)
    case None => None
    case Some(None) => Some(None)
    case Some(Some(start)) =>
      match ExtentEnd(read, chunks, channel)
      case None => None
      case Some(None) => Some(None)
      case Some(Some(end)) => Some(Some(Span(start, end)))
  }

  /** The lookup as it runs, from the front and then from the back. */
  method ChannelExtentIn(read: Reader, chunks: seq<ChunkIndex>, channel: nat) returns (extent: Option<Option<Span>>)
    ensures extent == ExtentIn(read, chunks, channel)
  {
    hide TimesIn, Least, Greatest;
    var start: Option<nat> := None;
    var i := 0;
    assert chunks[0..] == chunks;
    while i < |chunks|
      invariant 0 <= i <= |chunks|
      invariant ExtentStart(read, chunks, channel) == ExtentStart(read, chunks[i..], channel)
    {
      assert chunks[i..][1..] == chunks[i + 1..];
      var t := TimesIn(read, chunks[i], channel);
      if t == None {
        return None;
      }
      if |t.value| > 0 {
        start := Some(Least(t.value));
        break;
      }
      i := i + 1;
    }
    if start == None {
      return Some(None);
    }
    var n := |chunks|;
    assert chunks[..n] == chunks;
    while n > 0
      invariant 0 <= n <= |chunks|
      invariant ExtentEnd(read, chunks, channel) == ExtentEnd(read, chunks[..n], channel)
    {
      assert chunks[..n][..n - 1] == chunks[..n - 1];
      var t := TimesIn(read, chunks[n - 1], channel);
      if t == None {
        return None;
      }
      if |t.value| > 0 {
        return Some(Some(Span(start.value, Greatest(t.value))));
      }
      n := n - 1;
    }
    extent := Some(None);
  }

  /** `times` is what the channel's index record for the chunk holds. */
  ghost predicate Holds(read: Reader, chunk: ChunkIndex, channel: nat, times: seq<nat>) {
    && channel in chunk.indexOffsets
    && exists index ::
         read(chunk.indexOffsets[channel]) == Some(index) && index.channel == channel && times == Times(index)
  }

  ghost predicate Unreadable(read: Reader, chunk: ChunkIndex, channel: nat) {
    forall times :: !Holds(read, chunk, channel, times)
  }

  ghost predicate AllEmpty(read: Reader, chunks: seq<ChunkIndex>, channel: nat) {
    forall i :: 0 <= i < |chunks| ==> Holds(read, chunks[i], channel, [])
  }

  predicate IsLeast(t: nat, times: seq<nat>) {
    (exists u <- times :: u == t) && forall u <- times :: t <= u
  }

  predicate IsGreatest(t: nat, times: seq<nat>) {
    (exists u <- times :: u == t) && forall u <- times :: u <= t
  }

  lemma HeldTimes(read: Reader, chunk: ChunkIndex, channel: nat)
    ensures TimesIn(read, chunk, channel) == None <==> Unreadable(read, chunk, channel)
    ensures forall times :: Holds(read, chunk, channel, times) <==> TimesIn(read, chunk, channel) == Some(times)
  {
    if TimesIn(read, chunk, channel).Some? {
      assert Holds(read, chunk, channel, Times(read(chunk.indexOffsets[channel]).value));
    }
  }

  /** The channel's index in chunk `i` cannot be read, and those before it are empty. */
  ghost predicate FailsFront(read: Reader, chunks: seq<ChunkIndex>, channel: nat, i: nat)
    requires i < |chunks|
  {
    Unreadable(read, chunks[i], channel) && AllEmpty(read, chunks[..i], channel)
  }

  ghost predicate FailsBack(read: Reader, chunks: seq<ChunkIndex>, channel: nat, i: nat)
    requires i < |chunks|
  {
    Unreadable(read, chunks[i], channel) && AllEmpty(read, chunks[i + 1..], channel)
  }

  ghost predicate StartsIn(read: Reader, chunks: seq<ChunkIndex>, channel: nat, i: nat, t: nat)
    requires i < |chunks|
  {
    AllEmpty(read, chunks[..i], channel) && exists times :: Holds(read, chunks[i], channel, times) && IsLeast(t, times)
  }

  ghost predicate EndsIn(read: Reader, chunks: seq<ChunkIndex>, channel: nat, i: nat, t: nat)
    requires i < |chunks|
  {
    AllEmpty(read, chunks[i + 1..], channel)
    && exists times :: Holds(read, chunks[i], channel, times) && IsGreatest(t, times)
  }

  lemma {:induction false} StartTold(read: Reader, chunks: seq<ChunkIndex>, channel: nat)
    ensures var start := ExtentStart(read, chunks, channel);
            && (start == None ==> exists i: nat :: i < |chunks| && FailsFront(read, chunks, channel, i))
            && (start == Some(None) ==> AllEmpty(read, chunks, channel))
            && (start.Some? && start.value.Some? ==>
                exists i: nat :: i < |chunks| && StartsIn(read, chunks, channel, i, start.value.value))
  {
    hide Holds, TimesIn, Unreadable;
    if |chunks| > 0 {
      HeldTimes(read, chunks[0], channel);
      StartTold(read, chunks[1..], channel);
      match TimesIn(read, chunks[0], channel)
      case None => assert FailsFront(read, chunks, channel, 0);
      case Some(times) =>
        if |times| > 0 {
          assert IsLeast(Least(times), times);
          assert StartsIn(read, chunks, channel, 0, Least(times));
        } else {
          assert times == [];
          var rest := ExtentStart(read, chunks[1..], channel);
          if rest == None {
            var i: nat :| i < |chunks[1..]| && FailsFront(read, chunks[1..], channel, i);
            assert chunks[..i + 1] == [chunks[0]] + chunks[1..][..i];
            assert FailsFront(read, chunks, channel, i + 1);
          } else if rest.value.Some? {
            var i: nat :| i < |chunks[1..]| && StartsIn(read, chunks[1..], channel, i, rest.value.value);
            assert chunks[..i + 1] == [chunks[0]] + chunks[1..][..i];
            assert StartsIn(read, chunks, channel, i + 1, rest.value.value);
          }
        }
    }
  }

  lemma {:induction false} EndTold(read: Reader, chunks: seq<ChunkIndex>, channel: nat)
    ensures var end := ExtentEnd(read, chunks, channel);
            && (end == None ==> exists i: nat :: i < |chunks| && FailsBack(read, chunks, channel, i))
            && (end == Some(None) ==> AllEmpty(read, chunks, channel))
            && (end.Some? && end.value.Some? ==>
                exists i: nat :: i < |chunks| && EndsIn(read, chunks, channel, i, end.value.value))
  {
    hide Holds, TimesIn, Unreadable;
    if |chunks| > 0 {
      var n := |chunks| - 1;
      HeldTimes(read, chunks[n], channel);
      EndTold(read, chunks[..n], channel);
      match TimesIn(read, chunks[n], channel)
      case None => assert FailsBack(read, chunks, channel, n);
      case Some(times) =>
        if |times| > 0 {
          assert IsGreatest(Greatest(times), times);
          assert EndsIn(read, chunks, channel, n, Greatest(times));
        } else {
          assert times == [];
          var rest := ExtentEnd(read, chunks[..n], channel);
          if rest == None {
            var i: nat :| i < n && FailsBack(read, chunks[..n], channel, i);
            assert chunks[i + 1..] == chunks[..n][i + 1..] + [chunks[n]];
            assert FailsBack(read, chunks, channel, i);
          } else if rest.value.Some? {
            var i: nat :| i < n && EndsIn(read, chunks[..n], channel, i, rest.value.value);
            assert chunks[i + 1..] == chunks[..n][i + 1..] + [chunks[n]];
            assert EndsIn(read, chunks, channel, i, rest.value.value);
          }
        }
    }
  }

  /** A channel's extent reaches from the least time in the first chunk that holds any to
      the greatest in the last; it is not known when an index before the one or after the
      other cannot be read or is another channel's, and none when all are empty. */
  lemma ExtentTold(read: Reader, chunks: seq<ChunkIndex>, channel: nat)
    ensures var extent := ExtentIn(read, chunks, channel);
            && (extent == None ==>
                || (exists i: nat :: i < |chunks| && FailsFront(read, chunks, channel, i))
                || (exists i: nat :: i < |chunks| && FailsBack(read, chunks, channel, i)))
            && (extent == Some(None) ==> AllEmpty(read, chunks, channel))
            && (extent.Some? && extent.value.Some? ==>
                var span := extent.value.value;
                && 0 <= span.start && 0 <= span.end
                && (exists i: nat :: i < |chunks| && StartsIn(read, chunks, channel, i, span.start))
                && (exists i: nat :: i < |chunks| && EndsIn(read, chunks, channel, i, span.end)))
  {
    hide FailsFront, FailsBack, AllEmpty, StartsIn, EndsIn;
    StartTold(read, chunks, channel);
    EndTold(read, chunks, channel);
  }

  // ---------------------------------------------------------------- what a file's indexes answer

  /** The answers that feeding gets from a file's message indexes. */
  function IndexesOf(read: Reader): Indexes {
    Indexes(chunk => MessageTimes(read, chunk),
        (chunks: seq<ChunkIndex>, channel: nat) => ExtentIn(read, chunks, channel))
  }

  /** No message in the chunk's indexes lies outside the time range of its header. */
  predicate HeaderCovers(read: Reader, chunk: ChunkIndex) {
    forall c <- chunk.indexOffsets ::
      var index := read(chunk.indexOffsets[c]);
      index.Some? ==> forall i ::
          0 <= i < |index.value.records| ==> chunk.startTime <= index.value.records[i].1 <= chunk.endTime
  }

  lemma TimesCovered(read: Reader, chunk: ChunkIndex, channel: nat)
    requires HeaderCovers(read, chunk)
    ensures var times := TimesIn(read, chunk, channel);
            times.Some? ==> forall t <- times.value :: chunk.startTime <= t <= chunk.endTime
  {
    hide Times;
  }

  lemma {:induction false} StartCovered(read: Reader, chunks: seq<ChunkIndex>, channel: nat)
    requires forall c <- chunks :: HeaderCovers(read, c)
    ensures var start := ExtentStart(read, chunks, channel);
            start.Some? && start.value.Some? ==> exists c <- chunks :: c.startTime <= start.value.value
  {
    hide HeaderCovers;
    if |chunks| > 0 {
      assert chunks[0] in chunks;
      TimesCovered(read, chunks[0], channel);
      StartCovered(read, chunks[1..], channel);
    }
  }

  lemma {:induction false} EndCovered(read: Reader, chunks: seq<ChunkIndex>, channel: nat)
    requires forall c <- chunks :: HeaderCovers(read, c)
    ensures var end := ExtentEnd(read, chunks, channel);
            end.Some? && end.value.Some? ==> exists c <- chunks :: end.value.value <= c.endTime
  {
    hide HeaderCovers;
    if |chunks| > 0 {
      var n := |chunks| - 1;
      assert chunks[n] in chunks;
      TimesCovered(read, chunks[n], channel);
      EndCovered(read, chunks[..n], channel);
    }
  }

  // ---------------------------------------------------------------- chunks in order

  /** From the least to the greatest of the times. */
  function TimesHull(times: seq<nat>): Option<Span> {
    if |times| == 0 then None else Some(Span(Least(times), Greatest(times)))
  }

  lemma SameTimesHull(a: seq<nat>, b: seq<nat>)
    requires forall t :: t in a <==> t in b
    ensures TimesHull(a) == TimesHull(b)
  {
    if |a| > 0 {
      assert a[0] in b;
    }
    if |b| > 0 {
      assert b[0] in a;
    }
  }

  lemma TimesHullConcat(a: seq<nat>, b: seq<nat>)
    ensures TimesHull(a + b) == MergeOption(TimesHull(a), TimesHull(b))
  {
    if |a| == 0 {
      assert a + b == b;
    } else if |b| == 0 {
      assert a + b == a;
    } else {
      assert Least(a) in a + b && Least(b) in a + b && Greatest(a) in a + b && Greatest(b) in a + b;
      assert forall t <- a + b :: t in a || t in b;
    }
  }

  /** The hull of all the channel's times in the chunks. */
  function HeldHull(read: Reader, chunks: seq<ChunkIndex>, channel: nat): Option<Span> {
    if |chunks| == 0 then None
    else
      var n := |chunks| - 1;
      var before := HeldHull(read, chunks[..n], channel);
      match TimesIn(read, chunks[n], channel)
      case None => before
      case Some(times) => MergeOption(before, TimesHull(times))
  }

  /** None of the channel's times in the chunks is after `t`. */
  predicate TimesBy(read: Reader, chunks: seq<ChunkIndex>, channel: nat, t: int) {
    |chunks| > 0 ==>
      var n := |chunks| - 1;
      TimesBy(read, chunks[..n], channel, t)
      && (TimesIn(read, chunks[n], channel).Some? ==> forall u <- TimesIn(read, chunks[n], channel).value :: u <= t)
  }

  /** The channel's index can be read in every chunk, and its times in each chunk are
      no earlier than those in the chunks before. */
  predicate ChunksOrdered(read: Reader, chunks: seq<ChunkIndex>, channel: nat) {
    |chunks| > 0 ==>
      var n := |chunks| - 1;
      ChunksOrdered(read, chunks[..n], channel)
      && TimesIn(read, chunks[n], channel).Some?
      && forall t <- TimesIn(read, chunks[n], channel).value :: TimesBy(read, chunks[..n], channel, t)
  }

  lemma {:induction false} StartSnoc(read: Reader, chunks: seq<ChunkIndex>, more: ChunkIndex, channel: nat)
    ensures ExtentStart(read, chunks + [more], channel) ==
            (match ExtentStart(read, chunks, channel)
             case None => None
             case Some(Some(t)) => Some(Some(t))
             case Some(None) => ExtentStart(read, [more], channel))
  {
    if |chunks| == 0 {
      assert chunks + [more] == [more];
    } else {
      assert (chunks + [more])[1..] == chunks[1..] + [more];
      StartSnoc(read, chunks[1..], more, channel);
    }
  }

  lemma {:induction false} HullBy(read: Reader, chunks: seq<ChunkIndex>, channel: nat, t: int)
    requires TimesBy(read, chunks, channel, t)
    ensures var hull := HeldHull(read, chunks, channel);
            hull.Some? ==> hull.value.start <= hull.value.end <= t
  {
    if |chunks| > 0 {
      HullBy(read, chunks[..|chunks| - 1], channel, t);
    }
  }

  /** When a channel's times do not go back from one chunk to a later one, its extent
      read from the first and last chunk holding any is the hull of them all. */
  lemma {:induction false} ExtentIsHull(read: Reader, chunks: seq<ChunkIndex>, channel: nat)
    requires ChunksOrdered(read, chunks, channel)
    ensures ExtentIn(read, chunks, channel) == Some(HeldHull(read, chunks, channel))
    ensures var hull := HeldHull(read, chunks, channel);
            && ExtentStart(read, chunks, channel) == Some(if hull.Some? then Some(hull.value.start) else None)
            && ExtentEnd(read, chunks, channel) == Some(if hull.Some? then Some(hull.value.end) else None)
  {
    if |chunks| > 0 {
      var n := |chunks| - 1;
      var times := TimesIn(read, chunks[n], channel).value;
      ExtentIsHull(read, chunks[..n], channel);
      assert chunks == chunks[..n] + [chunks[n]];
      StartSnoc(read, chunks[..n], chunks[n], channel);
      assert [chunks[n]][1..] == [];
      assert ExtentStart(read, [], channel) == Some(None);
      if |times| > 0 {
        HullBy(read, chunks[..n], channel, Least(times));
      }
    }
  }
}
