/** What leaving chunks compressed costs against opening every chunk: exactly the
    channels that are counted without the help of an index and are declared only in
    chunks that stayed compressed, unless the summary names them. */
module LazyChannels {
  import opened Spans
  import opened Feed
  import opened Scan
  import opened ScanLayout
  import opened OpenedChunks

  // ---------------------------------------------------------------- opening everything

  /** The channels declared anywhere in the groups. */
  function EagerTopics(groups: seq<Group>): map<nat, string> {
    if |groups| == 0 then map[]
    else
      var before := EagerTopics(groups[..|groups| - 1]);
      match groups[|groups| - 1]
      case ChunkGroup(_, _, _, contents, _) => Declare(before, contents)
      case Single(Placed(_, Channel(id, topic))) => before[id := topic]
      case Single(_) => before
  }

  /** The messages of each channel, in and outside chunks. */
  function EagerCounts(groups: seq<Group>): map<nat, nat> {
    if |groups| == 0 then map[]
    else
      var before := EagerCounts(groups[..|groups| - 1]);
      match groups[|groups| - 1]
      case ChunkGroup(_, _, _, contents, _) => CountInside(before, contents)
      case Single(Placed(_, Message(_, channel))) => Bump(before, channel, 1)
      case Single(_) => before
  }

  /** The channels with messages in a chunk. */
  function UsedIn(contents: seq<Inner>): set<nat> {
    CountInside(map[], contents).Keys
  }

  /** The channels with messages in a group. */
  function UsedBy(g: Group): set<nat> {
    match g
    case ChunkGroup(_, _, _, contents, _) => UsedIn(contents)
    case Single(Placed(_, Message(_, channel))) => {channel}
    case Single(_) => {}
  }

  /** The channels that have a message or a MessageIndex record, be it an empty one. */
  function Counted(groups: seq<Group>): set<nat> {
    set k, id | 0 <= k < |groups| && id in UsedBy(groups[k]) + MarkedIn(groups[k]) :: id
  }

  /** What a file is reported to hold: each counted channel whose topic is known. */
  function Reported(s: ScanState): map<nat, (string, nat)> {
    map id | id in s.counts && id in s.topics :: (s.topics[id], s.counts[id])
  }

  /** What there is to report: the channels with a message, a MessageIndex record or a
      place in the summary, each with its topic and the messages that it really has. */
  function Listed(groups: seq<Group>, channels: map<nat, string>): map<nat, (string, nat)> {
    map id | id in Counted(groups) + channels.Keys && id in EagerTopics(groups).Keys + channels.Keys ::
      (if id in EagerTopics(groups) then EagerTopics(groups)[id] else channels[id], CountOf(EagerCounts(groups), id))
  }

  // ---------------------------------------------------------------- what is assumed of the file

  /** Equal ids carry identical records. */
  predicate Named(contents: seq<Inner>, names: map<nat, string>) {
    forall i :: 0 <= i < |contents| && contents[i].InnerChannel? ==>
      contents[i].id in names && names[contents[i].id] == contents[i].topic
  }

  predicate NamedGroup(g: Group, names: map<nat, string>) {
    match g
    case ChunkGroup(_, _, _, contents, _) => Named(contents, names)
    case Single(Placed(_, Channel(id, topic))) => id in names && names[id] == topic
    case Single(_) => true
  }

  ghost predicate SameCounts(a: map<nat, nat>, b: map<nat, nat>) {
    forall id :: CountOf(a, id) == CountOf(b, id)
  }

  /** A chunk with MessageIndex records has them for all its messages. A record without
      entries, for a channel with no message in the chunk, is as good as none. */
  ghost predicate TruthfulMarks(g: Group) {
    Indexed(g) ==> SameCounts(CountsOf(g.marks), CountInside(map[], g.contents))
  }

  ghost predicate Truthful(groups: seq<Group>, names: map<nat, string>) {
    && ValidLayout(groups)
    && forall g <- groups :: NamedGroup(g, names) && TruthfulMarks(g)
  }

  /** The part of a file's summary section that the scan reads. */
  datatype Summary = Summary(channels: map<nat, string>, stats: Option<map<nat, nat>>)

  ghost predicate TruthfulSummary(summary: Summary, groups: seq<Group>, names: map<nat, string>) {
    && Agrees(summary.channels, names)
    && (summary.stats.Some? ==>
          forall id :: id in summary.stats.value ==> summary.stats.value[id] == CountOf(EagerCounts(groups), id))
  }

  /** The channels the summary declares, so that topics without messages are
      listed, and its message counts where it has statistics. */
  function Seeded(s: ScanState, summary: Option<Summary>): ScanState {
    match summary
    case None => s
    case Some(Summary(channels, stats)) =>
      s.(topics := map id | id in s.topics.Keys + channels.Keys ::
          if id in s.topics then s.topics[id] else channels[id],
         counts := map id | id in s.counts.Keys + channels.Keys ::
                     if id in channels && stats.Some? && id in stats.value then stats.value[id]
                         else CountOf(s.counts, id))
  }

  /** Whatever the summary says, it adds the channels that the scan has not found and renames
      none, and its statistics decide the counts of its own channels only. */
  lemma SummaryAdds(s: ScanState, summary: Summary, id: nat)
    ensures var t := Seeded(s, Some(summary));
            && (id in s.topics ==> id in t.topics && t.topics[id] == s.topics[id])
            && (id !in s.topics ==> (id in t.topics <==> id in summary.channels))
            && (id !in s.topics && id in t.topics ==> t.topics[id] == summary.channels[id])
            && (id in t.counts <==> id in s.counts || id in summary.channels)
            && CountOf(t.counts, id)
               == if id in summary.channels && summary.stats.Some? && id in summary.stats.value
                  then summary.stats.value[id] else CountOf(s.counts, id)
  {
  }

  function ChannelsOf(summary: Option<Summary>): map<nat, string> {
    if summary.Some? then summary.value.channels else map[]
  }

  // ---------------------------------------------------------------- which channels may be lost

  /** The channels a group counts without making sure that they are known: those with
      messages that no index covers, and those of an index that comes before any
      declaration. */
  function UncoveredBy(groups: seq<Group>, k: nat): set<nat>
    requires k < |groups|
  {
    if Indexed(groups[k]) then MarkedIn(groups[k]) - DeclaredBetween(groups, 0, k + 1) else UsedBy(groups[k])
  }

  function Uncovered(groups: seq<Group>): set<nat> {
    set k, id | 0 <= k < |groups| && id in UncoveredBy(groups, k) :: id
  }

  /** Every channel of an index is known once its chunk has been read, if it has been declared by then. */
  lemma {:induction false} MarkedAreKnown(groups: seq<Group>, k: nat, h: nat, id: nat)
    requires h <= k < |groups| && Indexed(groups[k])
    requires id in MarkedIn(groups[k]) && id in DeclaredBy(groups[h])
    ensures id in Known(groups, k + 1)
    decreases k - h
  {
    hide Known, Needs, Indexed, MarkedIn, DeclaredBy;
    if !Indexed(groups[h]) || Opened(groups, h, k + 1) {
      DeclaredIsKnown(groups, h, k + 1);
    } else {
      assert !Needs(groups, h, k);
      UnneededIsKnown(groups, h, k);
      if id in Known(groups, h) {
        KnownGrows(groups, h, k + 1);
      } else {
        var later: nat :| h < later < k + 1 && id in DeclaredBy(groups[later]);
        MarkedAreKnown(groups, k, later, id);
      }
    }
  }

  lemma UnneededIsKnown(groups: seq<Group>, h: nat, k: nat)
    requires h <= k < |groups| && Indexed(groups[k]) && !Needs(groups, h, k)
    ensures MarkedIn(groups[k]) <= Known(groups, h) + DeclaredBetween(groups, h + 1, k + 1)
  {
    hide Known;
  }

  /** A channel counted yet unknown is one that no index covers. */
  lemma CountedIsKnown(groups: seq<Group>, names: map<nat, string>, id: nat)
    requires Truthful(groups, names) && id in Counted(groups) && id in DeclaredBetween(groups, 0, |groups|)
    ensures id in Known(groups, |groups|) || id in Uncovered(groups)
  {
    hide Known, UsedBy, MarkedIn, DeclaredBy, Indexed, TruthfulMarks;
    var k: nat :| k < |groups| && id in UsedBy(groups[k]) + MarkedIn(groups[k]);
    var g := groups[k];
    assert g in groups && TruthfulMarks(g);
    UsedAreMarked(g);
    if Indexed(g) {
      if id in DeclaredBetween(groups, 0, k + 1) {
        var h: nat :| h < k + 1 && id in DeclaredBy(groups[h]);
        MarkedAreKnown(groups, k, h, id);
        KnownGrows(groups, k + 1, |groups|);
      } else {
        assert id in UncoveredBy(groups, k);
      }
    } else {
      assert id in UncoveredBy(groups, k);
    }
  }

  lemma UncoveredIsCounted(groups: seq<Group>)
    ensures Uncovered(groups) <= Counted(groups)
  {
    hide UsedBy, MarkedIn, Indexed, DeclaredBetween;
    forall id | id in Uncovered(groups)
      ensures id in Counted(groups)
    {
      var k: nat :| k < |groups| && id in UncoveredBy(groups, k);
      assert id in UsedBy(groups[k]) + MarkedIn(groups[k]);
    }
  }

  lemma {:induction false} UsedIsPositive(contents: seq<Inner>)
    ensures forall id :: id in UsedIn(contents) ==> CountOf(CountInside(map[], contents), id) > 0
  {
    if |contents| > 0 {
      UsedIsPositive(contents[..|contents| - 1]);
    }
  }

  lemma UsedAreMarked(g: Group)
    requires TruthfulMarks(g)
    ensures if Indexed(g) then UsedBy(g) <= MarkedIn(g) else MarkedIn(g) == {}
  {
    if Indexed(g) {
      UsedIsPositive(g.contents);
      forall id | id in UsedBy(g)
        ensures id in MarkedIn(g)
      {
        assert CountOf(CountsOf(g.marks), id) == CountOf(CountInside(map[], g.contents), id);
      }
    }
  }

  lemma {:induction false} EagerKeys(groups: seq<Group>)
    ensures EagerTopics(groups).Keys == DeclaredBetween(groups, 0, |groups|)
  {
    hide DeclaredIn;
    if |groups| > 0 {
      var n := |groups| - 1;
      EagerKeys(groups[..n]);
      SameBetween(groups, n);
      BetweenMore(groups, 0, n);
      if groups[n].ChunkGroup? {
        DeclareKeys(EagerTopics(groups[..n]), groups[n].contents);
      }
    }
  }

  lemma SameBetween(groups: seq<Group>, n: nat)
    requires n <= |groups|
    ensures DeclaredBetween(groups[..n], 0, n) == DeclaredBetween(groups, 0, n)
  {
    hide DeclaredBy;
  }

  lemma KnownIsDeclared(groups: seq<Group>, n: nat)
    requires n <= |groups|
    ensures Known(groups, n) <= DeclaredBetween(groups, 0, n)
  {
    hide DeclaredBy, Opened;
  }

  // ---------------------------------------------------------------- names

  predicate Agrees(topics: map<nat, string>, names: map<nat, string>) {
    forall id :: id in topics ==> id in names && names[id] == topics[id]
  }

  lemma {:induction false} DeclareAgrees(topics: map<nat, string>, contents: seq<Inner>, names: map<nat, string>)
    requires Agrees(topics, names) && Named(contents, names)
    ensures Agrees(Declare(topics, contents), names)
  {
    if |contents| > 0 {
      DeclareAgrees(topics, contents[..|contents| - 1], names);
    }
  }

  lemma {:induction false} EagerAgrees(groups: seq<Group>, names: map<nat, string>)
    requires forall g <- groups :: NamedGroup(g, names)
    ensures Agrees(EagerTopics(groups), names)
  {
    if |groups| > 0 {
      var n := |groups| - 1;
      assert forall g <- groups[..n] :: g in groups;
      EagerAgrees(groups[..n], names);
      assert NamedGroup(groups[n], names);
      if groups[n].ChunkGroup? {
        DeclareAgrees(EagerTopics(groups[..n]), groups[n].contents, names);
      }
    }
  }

  /** The channels declared in chunks left compressed. */
  function SkippedKeys(skipped: seq<seq<Inner>>): set<nat> {
    if |skipped| == 0 then {} else SkippedKeys(skipped[..|skipped| - 1]) + DeclaredIn(skipped[|skipped| - 1])
  }

  predicate SkippedNamed(skipped: seq<seq<Inner>>, names: map<nat, string>) {
    forall i :: 0 <= i < |skipped| ==> Named(skipped[i], names)
  }

  /** Opening skipped chunks finds every channel that can be found and forgets no declaration. */
  lemma {:induction false} OpenSkippedKeeps(topics: map<nat, string>, skipped: seq<seq<Inner>>, channels: set<nat>,
                                            names: map<nat, string>)
    requires Agrees(topics, names) && SkippedNamed(skipped, names)
    ensures var (topics', skipped') := OpenSkipped(topics, skipped, channels);
            && Agrees(topics', names) && SkippedNamed(skipped', names)
            && topics'.Keys + SkippedKeys(skipped') == topics.Keys + SkippedKeys(skipped)
            && topics.Keys <= topics'.Keys
            && channels * (topics.Keys + SkippedKeys(skipped)) <= topics'.Keys
    decreases |skipped|
  {
    hide DeclaredIn, Named;
    if Unseen(topics, channels) && |skipped| > 0 {
      var last := skipped[|skipped| - 1];
      DeclareKeys(topics, last);
      DeclareAgrees(topics, last, names);
      OpenSkippedKeeps(Declare(topics, last), skipped[..|skipped| - 1], channels, names);
    }
  }

  // ---------------------------------------------------------------- the scan

  /** Counting a chunk's messages on top of others is adding its own counts. */
  lemma {:induction false} CountAdds(counts: map<nat, nat>, contents: seq<Inner>)
    ensures CountInside(counts, contents) == AddCounts(counts, CountInside(map[], contents))
  {
    if |contents| == 0 {
      assert AddCounts(counts, map[]) == counts;
    } else {
      var n := |contents| - 1;
      CountAdds(counts, contents[..n]);
      if contents[n].InnerMessage? {
        AddBump(counts, CountInside(map[], contents[..n]), contents[n].channel);
      }
    }
  }

  lemma AddBump(counts: map<nat, nat>, more: map<nat, nat>, channel: nat)
    ensures AddCounts(counts, Bump(more, channel, 1)) == Bump(AddCounts(counts, more), channel, 1)
  {
  }

  /** What the scan has collected, whichever chunks it opened. */
  ghost predicate Collected(s: ScanState, groups: seq<Group>, names: map<nat, string>) {
    && s.chunk == None
    && Agrees(s.topics, names) && SkippedNamed(s.skipped, names)
    && SameCounts(s.counts, EagerCounts(groups))
    && s.counts.Keys == Counted(groups)
  }

  lemma CountedMore(before: seq<Group>, g: Group)
    ensures Counted(before + [g]) == Counted(before) + UsedBy(g) + MarkedIn(g)
  {
    hide UsedBy, MarkedIn;
    var more := before + [g];
    assert more[|before|] == g;
    forall id | id in Counted(before) + UsedBy(g) + MarkedIn(g)
      ensures id in Counted(more)
    {
      if id in Counted(before) {
        var k: nat :| k < |before| && id in UsedBy(before[k]) + MarkedIn(before[k]);
        assert id in UsedBy(more[k]) + MarkedIn(more[k]);
      } else {
        assert id in UsedBy(more[|before|]) + MarkedIn(more[|before|]);
      }
    }
  }

  lemma AddCountsOf(a: map<nat, nat>, b: map<nat, nat>, more: map<nat, nat>, same: map<nat, nat>)
    requires SameCounts(a, b) && SameCounts(more, same)
    ensures SameCounts(AddCounts(a, more), AddCounts(b, same))
  {
    forall id: nat
      ensures CountOf(AddCounts(a, more), id) == CountOf(AddCounts(b, same), id)
    {
      assert CountOf(a, id) == CountOf(b, id) && CountOf(more, id) == CountOf(same, id);
    }
  }

  lemma CountsLikeThemselves(counts: map<nat, nat>)
    ensures SameCounts(counts, counts)
  {
  }

  /** What a chunk adds to the counts, opened or not. */
  lemma ChunkCounts(s: ScanState, before: seq<Group>, g: Group)
    requires g.ChunkGroup? && TruthfulMarks(g)
    requires SameCounts(s.counts, EagerCounts(before)) && s.counts.Keys == Counted(before)
    ensures SameCounts(AddGroup(s, g).counts, EagerCounts(before + [g]))
    ensures AddGroup(s, g).counts.Keys == Counted(before + [g])
    ensures AddGroup(s, g).chunk == None
  {
    hide Declare, OpenSkipped, Counted, SameCounts, CountInside;
    assert (before + [g])[..|before|] == before;
    var own := CountInside(map[], g.contents);
    SameChannels(g.marks);
    CountAdds(s.counts, g.contents);
    CountAdds(EagerCounts(before), g.contents);
    CountedMore(before, g);
    UsedAreMarked(g);
    CountsLikeThemselves(own);
    var more := if Indexed(g) then CountsOf(g.marks) else own;
    assert AddGroup(s, g).counts == AddCounts(s.counts, more);
    AddCountsOf(s.counts, EagerCounts(before), more, own);
  }

  lemma ChunkNames(s: ScanState, g: Group, names: map<nat, string>)
    requires g.ChunkGroup? && NamedGroup(g, names) && Agrees(s.topics, names) && SkippedNamed(s.skipped, names)
    ensures var t := AddGroup(s, g); Agrees(t.topics, names) && SkippedNamed(t.skipped, names)
  {
    hide Declare, OpenSkipped, Agrees, AddCounts, CountInside, Indexed, MarkedIn, Named;
    DeclareAgrees(s.topics, g.contents, names);
    OpenSkippedKeeps(Declare(s.topics, g.contents), s.skipped, OffsetsOf(g.marks).Keys, names);
  }

  lemma SingleCollects(s: ScanState, before: seq<Group>, g: Group, names: map<nat, string>)
    requires Collected(s, before, names) && g.Single? && ValidGroup(g) && NamedGroup(g, names) && TruthfulMarks(g)
    ensures Collected(AddGroup(s, g), before + [g], names)
  {
    hide SkippedNamed, Counted;
    assert (before + [g])[..|before|] == before;
    CountedMore(before, g);
    UsedAreMarked(g);
    forall id: nat
      ensures CountOf(AddGroup(s, g).counts, id) == CountOf(EagerCounts(before + [g]), id)
    {
      assert CountOf(s.counts, id) == CountOf(EagerCounts(before), id);
    }
  }

  lemma {:induction false} SettledCollects(groups: seq<Group>, names: map<nat, string>)
    requires Truthful(groups, names)
    ensures Collected(Settled(groups), groups, names)
  {
    hide AddGroup, NamedGroup, TruthfulMarks, SameCounts, Agrees, SkippedNamed;
    if |groups| == 0 {
      NothingCollected(names);
      assert groups == [];
    } else {
      var n := |groups| - 1;
      var s, g := Settled(groups[..n]), groups[n];
      assert forall h <- groups[..n] :: h in groups;
      SettledCollects(groups[..n], names);
      assert g in groups && ValidGroup(g) && NamedGroup(g, names) && TruthfulMarks(g);
      assert groups[..n] + [g] == groups;
      if g.ChunkGroup? {
        ChunkCounts(s, groups[..n], g);
        ChunkNames(s, g, names);
      } else {
        SingleCollects(s, groups[..n], g, names);
      }
    }
  }

  lemma NothingCollected(names: map<nat, string>)
    ensures Collected(NOTHING, [], names)
  {
  }

  // ---------------------------------------------------------------- what is reported

  /** Seeding changes no count that the file has, and every name stays the right one. */
  lemma SeedKeeps(s: ScanState, groups: seq<Group>, names: map<nat, string>, summary: Option<Summary>)
    requires Collected(s, groups, names)
    requires summary.Some? ==> TruthfulSummary(summary.value, groups, names)
    ensures var t := Seeded(s, summary);
            && Agrees(t.topics, names) && SameCounts(t.counts, EagerCounts(groups))
            && t.topics.Keys == s.topics.Keys + ChannelsOf(summary).Keys
            && t.counts.Keys == Counted(groups) + ChannelsOf(summary).Keys
  {
    hide EagerCounts, Counted, SkippedNamed;
  }

  /** Two reports of the same names and counts differ exactly in what is known. */
  lemma ReportedIs(s: ScanState, groups: seq<Group>, channels: map<nat, string>, names: map<nat, string>,
                   known: set<nat>)
    requires Agrees(s.topics, names) && Agrees(channels, names) && Agrees(EagerTopics(groups), names)
    requires SameCounts(s.counts, EagerCounts(groups))
    requires known <= EagerTopics(groups).Keys && s.topics.Keys == known + channels.Keys
    requires s.counts.Keys == Counted(groups) + channels.Keys
    ensures Reported(s) == Listed(groups, channels)
            <==> Counted(groups) * EagerTopics(groups).Keys <= known + channels.Keys
  {
    hide EagerCounts, EagerTopics, Counted;
    var lazy, eager := Reported(s), Listed(groups, channels);
    forall id | id in lazy.Keys
      ensures id in eager && lazy[id] == eager[id]
    {
      assert CountOf(s.counts, id) == CountOf(EagerCounts(groups), id);
    }
    if Counted(groups) * EagerTopics(groups).Keys <= known + channels.Keys {
      assert eager.Keys <= lazy.Keys;
      assert lazy == eager;
    } else {
      var id :| id in Counted(groups) && id in EagerTopics(groups).Keys && id !in known + channels.Keys;
      assert id in eager && id !in lazy;
    }
  }

  /** What the scan reports is all there is to report if and only if every channel that
      is counted without the help of an index, and declared anywhere, is declared outside
      the chunks that stayed compressed or in the summary. */
  lemma SettledReport(groups: seq<Group>, names: map<nat, string>, summary: Option<Summary>)
    requires Truthful(groups, names)
    requires summary.Some? ==> TruthfulSummary(summary.value, groups, names)
    ensures Reported(Seeded(Settled(groups), summary)) == Listed(groups, ChannelsOf(summary))
            <==> Uncovered(groups) * EagerTopics(groups).Keys <= Known(groups, |groups|) + ChannelsOf(summary).Keys
  {
    hide *;
    TruthfulParts(groups, names);
    SettledCollects(groups, names);
    SettledIsKnown(groups);
    EagerKeys(groups);
    EagerAgrees(groups, names);
    KnownIsDeclared(groups, |groups|);
    UncoveredIsCounted(groups);
    forall id | id in Counted(groups) && id in DeclaredBetween(groups, 0, |groups|)
      ensures id in Known(groups, |groups|) || id in Uncovered(groups)
    {
      CountedIsKnown(groups, names, id);
    }
    SeedKeeps(Settled(groups), groups, names, summary);
    SummaryAgrees(groups, names, summary);
    ReportedIs(Seeded(Settled(groups), summary), groups, ChannelsOf(summary), names, Known(groups, |groups|));
  }

  lemma TruthfulParts(groups: seq<Group>, names: map<nat, string>)
    requires Truthful(groups, names)
    ensures ValidLayout(groups) && forall g <- groups :: NamedGroup(g, names)
  {
  }

  lemma SummaryAgrees(groups: seq<Group>, names: map<nat, string>, summary: Option<Summary>)
    requires summary.Some? ==> TruthfulSummary(summary.value, groups, names)
    ensures Agrees(ChannelsOf(summary), names)
  {
  }

  /** A complete file is reported in full if and only if no channel that is counted
      without the help of an index is declared only in chunks that stayed compressed
      and left out of the summary. */
  lemma CompleteIsExactUnless(groups: seq<Group>, rest: seq<Placed>, names: map<nat, string>, summary: Option<Summary>)
    requires Truthful(groups, names) && |rest| > 0 && EndsData(rest[0].record)
    requires summary.Some? ==> TruthfulSummary(summary.value, groups, names)
    ensures Reported(Seeded(Scanned(Records(groups) + rest), summary)) == Listed(groups, ChannelsOf(summary))
            <==> Uncovered(groups) * EagerTopics(groups).Keys <= Known(groups, |groups|) + ChannelsOf(summary).Keys
  {
    hide *;
    TruthfulParts(groups, names);
    ScannedComplete(groups, rest);
    SettledReport(groups, names, summary);
  }

  /** A complete file whose summary declares all its channels is reported to hold each of
      them, with its messages, however much stayed compressed. */
  lemma CompleteIsExact(groups: seq<Group>, rest: seq<Placed>, names: map<nat, string>, summary: Summary)
    requires Truthful(groups, names) && |rest| > 0 && EndsData(rest[0].record)
    requires TruthfulSummary(summary, groups, names) && EagerTopics(groups).Keys <= summary.channels.Keys
    ensures Reported(Seeded(Scanned(Records(groups) + rest), Some(summary)))
            == map id | id in summary.channels :: (summary.channels[id], CountOf(EagerCounts(groups), id))
  {
    hide Seeded, Scanned, Records, EagerTopics, EagerCounts, Known, Uncovered, Counted, NamedGroup, TruthfulMarks;
    CompleteIsExactUnless(groups, rest, names, Some(summary));
    EagerAgrees(groups, names);
  }

  // ---------------------------------------------------------------- files cut short

  /** The groups of a file cut short as the scan takes them: the indexes of a last chunk
      may be incomplete, so they are set aside and the chunk is opened. */
  function LastOpened(groups: seq<Group>): seq<Group> {
    if |groups| > 0 && groups[|groups| - 1].ChunkGroup?
    then groups[..|groups| - 1] + [groups[|groups| - 1].(marks := [])]
    else groups
  }

  lemma CutShortIsSettled(groups: seq<Group>)
    requires ValidLayout(groups)
    ensures ValidLayout(LastOpened(groups)) && CutShort(groups) == Settled(LastOpened(groups))
    ensures EagerTopics(LastOpened(groups)) == EagerTopics(groups)
            && EagerCounts(LastOpened(groups)) == EagerCounts(groups)
  {
    if |groups| > 0 && groups[|groups| - 1].ChunkGroup? {
      var n := |groups| - 1;
      var last := groups[n].(marks := []);
      assert forall g <- groups[..n] :: g in groups;
      assert (groups[..n] + [last])[..n] == groups[..n];
    }
  }

  /** A file cut short is reported in full if and only if, its last chunk opened, no channel
      that is counted without the help of an index is declared only in chunks that stayed
      compressed. */
  lemma CutShortIsExactUnless(groups: seq<Group>, names: map<nat, string>)
    requires ValidLayout(groups) && Truthful(LastOpened(groups), names)
    ensures var taken := LastOpened(groups);
            Reported(Scanned(Records(groups))) == Listed(taken, map[])
            <==> Uncovered(taken) * EagerTopics(groups).Keys <= Known(taken, |taken|)
  {
    hide Reported, Scanned, Records, Listed, Uncovered, EagerTopics, EagerCounts, Known, Truthful, LastOpened;
    ScannedCutShort(groups);
    CutShortIsSettled(groups);
    SettledReport(LastOpened(groups), names, None);
  }

  // ---------------------------------------------------------------- topics that are lost

  /** A file that loses a topic: the second chunk stays compressed, as its one message is
      on a known channel, yet it alone declares the channel of the last chunk, which is
      opened for having no indexes. */
  const FIRST := ChunkGroup(0, 1, 1, [InnerChannel(1, "a"), InnerMessage(1, 1)], [Mark(10, 1, 1)])
  const SECOND := ChunkGroup(20, 2, 2, [InnerChannel(2, "b"), InnerMessage(2, 1)], [Mark(30, 1, 1)])
  const LAST := ChunkGroup(40, 3, 3, [InnerMessage(3, 2)], [])

  lemma TwoInners(x: Inner, y: Inner, topics: map<nat, string>, counts: map<nat, nat>)
    ensures Declare(topics, [x, y]) == Declare(Declare(topics, [x]), [y])
    ensures CountInside(counts, [x, y]) == CountInside(CountInside(counts, [x]), [y])
  {
    assert [x, y][..1] == [x];
  }

  lemma OneInner(x: Inner, topics: map<nat, string>, counts: map<nat, nat>)
    ensures Declare(topics, [x]) == if x.InnerChannel? then topics[x.id := x.topic] else topics
    ensures CountInside(counts, [x]) == if x.InnerMessage? then Bump(counts, x.channel, 1) else counts
  {
    assert [x][..0] == [];
  }

  lemma OneMark(m: Mark)
    ensures OffsetsOf([m]) == map[m.channel := m.offset] && CountsOf([m]).Keys == {m.channel}
  {
    assert [m][..0] == [];
  }

  lemma AfterFirst()
    ensures Settled([FIRST]).topics == map[1 := "a"] && Settled([FIRST]).skipped == [] && Settled([FIRST]).chunk == None
  {
    assert Settled([FIRST]) == AddGroup(Settled([FIRST][..0]), FIRST);
    assert [FIRST][..0] == [];
    OneMark(FIRST.marks[0]);
    TwoInners(FIRST.contents[0], FIRST.contents[1], map[], map[]);
    OneInner(FIRST.contents[0], map[], map[]);
    OneInner(FIRST.contents[1], map[1 := "a"], map[]);
    assert 1 in {1};
  }

  lemma AfterSecond()
    ensures var s := Settled([FIRST, SECOND]);
            s.topics == map[1 := "a"] && s.skipped == [SECOND.contents] && s.chunk == None
  {
    hide Settled;
    AfterFirst();
    assert [FIRST] + [SECOND] == [FIRST, SECOND];
    SettledMore([FIRST], SECOND);
    OneMark(SECOND.marks[0]);
  }

  lemma SettledMore(groups: seq<Group>, g: Group)
    requires ValidLayout(groups + [g])
    ensures ValidLayout(groups) && Settled(groups + [g]) == AddGroup(Settled(groups), g)
  {
    assert (groups + [g])[..|groups|] == groups;
    assert forall h <- groups :: h in groups + [g];
    assert g in groups + [g];
  }

  /** The file loses the topic both cut short after its last chunk and complete
      without a summary. */
  lemma LostTopic(rest: seq<Placed>)
    requires |rest| > 0 && EndsData(rest[0].record)
    ensures var groups := [FIRST, SECOND, LAST];
            && 2 in EagerTopics(groups)
            && (var s := Scanned(Records(groups)); 2 in s.counts && 2 !in Reported(s))
            && (var s := Seeded(Scanned(Records(groups) + rest), None); 2 in s.counts && 2 !in Reported(s))
  {
    hide Settled, Records, EagerTopics, Scanned;
    var groups := [FIRST, SECOND, LAST];
    ScannedCutShort(groups);
    ScannedComplete(groups, rest);
    AfterSecond();
    assert [FIRST, SECOND] + [LAST] == groups;
    assert groups[..2] == [FIRST, SECOND];
    SettledMore([FIRST, SECOND], LAST);
    var s := Settled([FIRST, SECOND]);
    OneInner(LAST.contents[0], s.topics, s.counts);
    EagerKeys(groups);
    TwoInners(SECOND.contents[0], SECOND.contents[1], map[], map[]);
    OneInner(SECOND.contents[0], map[], map[]);
    OneInner(SECOND.contents[1], map[2 := "b"], map[]);
    assert 2 in DeclaredBy(groups[1]);
  }
}
