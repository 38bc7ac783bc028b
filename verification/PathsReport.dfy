/** A complete, indexed file is reported alike through its summary and by walking its records. */
module PathsReport {
  import opened Spans
  import opened Feed
  import opened Scan
  import opened ScanLayout
  import opened LazyChannels
  import I = IndexPath

  /** The topics and counts listed through the summary: its channels, with the messages
      that its statistics count. */
  function SummaryReport(channels: map<nat, string>, stats: map<nat, nat>): map<nat, (string, nat)> {
    map id | id in channels :: (channels[id], CountOf(stats, id))
  }

  /** The statistics count the messages of every channel. */
  ghost predicate CountsAll(stats: map<nat, nat>, groups: seq<Group>) {
    SameCounts(stats, EagerCounts(groups))
  }

  /** For any complete file with indexes for all its messages, and a summary that declares
      all its channels, counts their messages and indexes its chunks and metadata: both
      paths feed the timeline alike and list the same topics with the same counts. */
  lemma BothPathsReport(groups: seq<Group>, rest: seq<Placed>, names: map<nat, string>, channels: map<nat, string>,
                        stats: map<nat, nat>, summary: I.Summary, indexes: Indexes, f: Feeding)
    requires I.FullyIndexed(groups) && Truthful(groups, names) && |rest| > 0 && EndsData(rest[0].record)
    requires I.Truthful(groups, summary) && Agrees(channels, names) && CountsAll(stats, groups)
    requires EagerTopics(groups).Keys <= channels.Keys
    ensures var scanned := Scanned(Records(groups) + rest);
            && FeedAll(indexes, f, scanned.entries) == FeedAll(indexes, f, I.IndexedEntries(groups, summary))
            && (I.IndexedSync(summary) <==> scanned.clockSync)
            && Reported(Seeded(scanned, Some(Summary(channels, Some(stats))))) == SummaryReport(channels, stats)
  {
    hide Truthful, EagerTopics, EagerCounts, Scanned, Records, Seeded, FeedAll, I.Truthful, I.FullyIndexed, I.Alike,
        Agrees;
    I.PathsAgree(groups, rest, summary, indexes, f);
    CompleteIsExact(groups, rest, names, Summary(channels, Some(stats)));
    forall id | id in channels
      ensures CountOf(stats, id) == CountOf(EagerCounts(groups), id)
    {
    }
  }
}
