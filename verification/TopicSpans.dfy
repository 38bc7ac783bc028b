/** No topic is reported to span more than the recording it is part of. */
module TopicSpans {
  import opened Spans
  import opened Timeline
  import opened Conservation
  import opened ChannelSpan

  /** The spans recorded for channels are the spans pushed to the timeline, in
      order and under the same segments. */
  predicate Agrees(history: seq<Item>, pushes: seq<ChannelItem>) {
    && |history| == |pushes|
    && forall i :: 0 <= i < |history| ==> history[i] == Item(pushes[i].segment, pushes[i].span)
  }

  /** Some span pushed in `segment` starts no later than `t`. */
  ghost predicate StartsBy(history: seq<Item>, segment: nat, t: int) {
    exists i :: 0 <= i < |history| && history[i].segment == segment && history[i].span.start <= t
  }

  /** Some span pushed in `segment` ends no earlier than `t`. */
  ghost predicate EndsFrom(history: seq<Item>, segment: nat, t: int) {
    exists i :: 0 <= i < |history| && history[i].segment == segment && t <= history[i].span.end
  }

  /** The span lies within what was pushed to the timeline in its segment. */
  ghost predicate Covered(history: seq<Item>, item: ChannelItem) {
    StartsBy(history, item.segment, item.span.start) && EndsFrom(history, item.segment, item.span.end)
  }

  ghost predicate AllCovered(history: seq<Item>, pushes: seq<ChannelItem>) {
    forall i :: 0 <= i < |pushes| ==> Covered(history, pushes[i])
  }

  lemma AgreeingIsCovered(history: seq<Item>, pushes: seq<ChannelItem>)
    requires Agrees(history, pushes)
    ensures AllCovered(history, pushes)
  {
    forall i | 0 <= i < |pushes|
      ensures Covered(history, pushes[i])
    {
      assert history[i] == Item(pushes[i].segment, pushes[i].span);
    }
  }

  /** A surviving segment's hull holds every span pushed in it, moved alike. */
  lemma {:induction false} HullHolds(history: seq<Item>, merged: seq<Join>, abandoned: seq<nat>, i: nat)
    requires i < |history| && history[i].segment !in abandoned
    ensures var home := Home(merged, history[i].segment);
            var hull := Hull(history, merged, abandoned, home.0);
            hull.Some? && Within(history[i].span.Moved(home.1), hull.value)
  {
    var n := |history| - 1;
    if i < n {
      assert history[..n][i] == history[i];
      HullHolds(history[..n], merged, abandoned, i);
    }
  }

  /** A channel's span lies within its segment's hull, moved alike. */
  lemma ItemWithin(history: seq<Item>, item: ChannelItem, merged: seq<Join>, abandoned: seq<nat>)
    requires Covered(history, item) && item.segment !in abandoned
    ensures var home := Home(merged, item.segment);
            var whole := Hull(history, merged, abandoned, home.0);
            var part := item.span.Shifted(home.1);
            whole.Some? && Clamp(whole.value.start) <= part.start && part.end <= Clamp(whole.value.end)
  {
    hide Home, Hull;
    var i :| 0 <= i < |history| && history[i].segment == item.segment && history[i].span.start <= item.span.start;
    var j :| 0 <= j < |history| && history[j].segment == item.segment && item.span.end <= history[j].span.end;
    HullHolds(history, merged, abandoned, i);
    HullHolds(history, merged, abandoned, j);
  }

  /** A channel's hull lies within the hull of everything pushed, moved alike. */
  lemma {:induction false} ChannelWithin(history: seq<Item>, pushes: seq<ChannelItem>, merged: seq<Join>,
                                         abandoned: seq<nat>, root: nat, channel: nat)
    requires AllCovered(history, pushes)
    ensures var part := ChannelHull(pushes, merged, abandoned, root, channel);
            var whole := Hull(history, merged, abandoned, root);
            part.Some? ==>
              && whole.Some?
              && Clamp(whole.value.start) <= part.value.start
              && part.value.end <= Clamp(whole.value.end)
  {
    hide Covered, Home, Hull;
    if |pushes| > 0 {
      var n := |pushes| - 1;
      assert forall i :: 0 <= i < n ==> pushes[..n][i] == pushes[i];
      ChannelWithin(history, pushes[..n], merged, abandoned, root, channel);
      if Counts(pushes[n], merged, abandoned, root, channel) {
        ItemWithin(history, pushes[n], merged, abandoned);
      }
    }
  }

  function Presence(history: seq<Item>, merged: seq<Join>, abandoned: seq<nat>, count: nat): (r: seq<nat>)
    ensures |r| == count
    ensures forall k :: 0 <= k < count ==> r[k] == if Hull(history, merged, abandoned, k).Some? then 1 else 0
  {
    seq(count, (k: nat) => if Hull(history, merged, abandoned, k).Some? then 1 else 0)
  }

  /** The number of surviving segments that hold any data. */
  function SegmentsWithData(s: State, history: seq<Item>): nat {
    Sum(Presence(history, s.merged, s.abandoned, s.nextSegment + 1))
  }

  /** Every channel's total fits in the duration, and its segments among the
      surviving ones. */
  predicate WithinRecording(s: State, history: seq<Item>, extent: ChannelExtent) {
    extent.spanNs <= Finish(s).duration && extent.segments <= SegmentsWithData(Finished(s), history)
  }

  /** Summed over the segments, a channel's spans and presence are at most the recording's. */
  lemma ChannelSums(history: seq<Item>, pushes: seq<ChannelItem>, merged: seq<Join>, abandoned: seq<nat>,
                    channel: nat, count: nat)
    requires AllCovered(history, pushes)
    ensures var extent := ExtentOver(pushes, merged, abandoned, channel, count);
            && extent.spanNs <= Sum(Lengths(history, merged, abandoned, count))
            && extent.segments <= Sum(Presence(history, merged, abandoned, count))
  {
    forall k: nat | k < count
      ensures ChannelLengths(pushes, merged, abandoned, channel, count)[k] <= Lengths(history, merged, abandoned,
              count)[k]
      ensures ChannelPresence(pushes, merged, abandoned, channel, count)[k] <= Presence(history, merged, abandoned,
              count)[k]
    {
      ChannelWithin(history, pushes, merged, abandoned, k, channel);
    }
    SumMonotone(ChannelLengths(pushes, merged, abandoned, channel, count), Lengths(history, merged, abandoned, count));
    SumMonotone(ChannelPresence(pushes, merged, abandoned, channel, count),
        Presence(history, merged, abandoned, count));
  }

  lemma SegmentsBounded(s: State, history: seq<Item>, pushes: seq<ChannelItem>)
    requires SegmentsInv(s, history) && AllCovered(history, pushes)
    ensures SegmentBound(pushes, s.merged) <= s.nextSegment + 1
  {
    forall i | 0 <= i < |pushes|
      ensures pushes[i].segment < s.nextSegment + 1
    {
      var k :| 0 <= k < |history| && history[k].segment == pushes[i].segment
          && history[k].span.start <= pushes[i].span.start;
    }
    BoundIsLeast(pushes, s.merged, s.nextSegment + 1);
  }

  lemma ExtentWithinRecording(s: State, history: seq<Item>, pauses: nat, pushes: seq<ChannelItem>, channel: nat)
    requires Inv(s, history, pauses) && CloseFits(SettlePause(s)) && AllCovered(history, pushes)
    ensures WithinRecording(s, history, ExtentOf(pushes, Finished(s).merged, Finished(s).abandoned, channel))
  {
    hide ExtentOf, ExtentOver, SettlePause, Timeline.Close, CloseFits, AllCovered;
    var f := Finished(s);
    FinishConserves(s, history, pauses);
    SegmentsBounded(f, history, pushes);
    ExtentStable(pushes, f.merged, f.abandoned, channel, f.nextSegment + 1);
    ChannelSums(history, pushes, f.merged, f.abandoned, channel, f.nextSegment + 1);
  }

  /** `SegmentBound` is no greater than any other bound. */
  lemma {:induction false} BoundIsLeast(pushes: seq<ChannelItem>, merged: seq<Join>, count: nat)
    requires forall i :: 0 <= i < |pushes| ==> pushes[i].segment < count
    requires forall i :: 0 <= i < |merged| ==> merged[i].into < count
    ensures SegmentBound(pushes, merged) <= count
    decreases |pushes|, |merged|
  {
    if |pushes| > 0 {
      BoundIsLeast(pushes[..|pushes| - 1], merged, count);
    } else if |merged| > 0 {
      BoundIsLeast(pushes, merged[..|merged| - 1], count);
    }
  }

  // ---------------------------------------------------------------- runs of messages and records

  /** What a fully resolved file feeds the timeline. */
  datatype Fed =
    | Message(time: nat, channel: nat)
    | Record(step: int)

  function EventOf(fed: Fed): Event {
    match fed
    case Message(time, _) => Pushed(Span(time, time))
    case Record(step) => Stepped(step)
  }

  function EventsOf(feed: seq<Fed>): (events: seq<Event>)
    ensures |events| == |feed|
    ensures forall i :: 0 <= i < |feed| ==> events[i] == EventOf(feed[i])
  {
    seq(|feed|, i requires 0 <= i < |feed| => EventOf(feed[i]))
  }

  /** The channel spans recorded alongside: each message under the segment open once it was pushed. */
  function PushesOf(authoritative: bool, feed: seq<Fed>): seq<ChannelItem> {
    if |feed| == 0 then []
    else
      var n := |feed| - 1;
      var before := PushesOf(authoritative, feed[..n]);
      match feed[n]
      case Message(time, channel) =>
        before + [ChannelItem(Run(authoritative, EventsOf(feed)).state.segment, channel, Span(time, time))]
      case Record(_) => before
  }

  lemma {:induction false} FeedAgrees(authoritative: bool, feed: seq<Fed>)
    ensures Agrees(Run(authoritative, EventsOf(feed)).history, PushesOf(authoritative, feed))
  {
    if |feed| > 0 {
      var n := |feed| - 1;
      FeedAgrees(authoritative, feed[..n]);
      assert EventsOf(feed)[..n] == EventsOf(feed[..n]);
    }
  }

  /** For any messages interleaved with any records, no channel's total span
      exceeds the duration and no channel is counted in more segments than survive. */
  lemma TopicsWithinRecording(authoritative: bool, feed: seq<Fed>, channel: nat)
    requires RunFits(authoritative, EventsOf(feed))
    requires CloseFits(SettlePause(Run(authoritative, EventsOf(feed)).state))
    ensures var t := Run(authoritative, EventsOf(feed));
            var f := Finished(t.state);
            WithinRecording(t.state, t.history, ExtentOf(PushesOf(authoritative, feed), f.merged, f.abandoned, channel))
  {
    var t := Run(authoritative, EventsOf(feed));
    FeedAgrees(authoritative, feed);
    AgreeingIsCovered(t.history, PushesOf(authoritative, feed));
    RunKeeps(authoritative, EventsOf(feed));
    ExtentWithinRecording(t.state, t.history, t.pauses, PushesOf(authoritative, feed), channel);
  }
}
