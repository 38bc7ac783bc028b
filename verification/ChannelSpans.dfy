/** Each channel's log-time extent, summed over the timeline's segments. */
module ChannelSpan {
  import opened Spans
  import opened Timeline
  import opened Conservation

  /** A span recorded for a channel in the segment open at the time. */
  datatype ChannelItem = ChannelItem(segment: nat, channel: nat, span: Span)

  /** A channel's summed extent, and the number of segments holding any of its spans. */
  datatype ChannelExtent = ChannelExtent(spanNs: nat, segments: nat)

  // ---------------------------------------------------------------- hulls of sets

  predicate Within(a: Span, b: Span) {
    b.start <= a.start && a.end <= b.end
  }

  ghost predicate Covers(span: Span, members: set<Span>) {
    forall x <- members :: Within(x, span)
  }

  /** `hull` is the least span covering `members`. */
  ghost predicate IsHull(hull: Option<Span>, members: set<Span>) {
    match hull
    case None => members == {}
    case Some(h) => members != {} && Covers(h, members) && forall b :: Covers(b, members) ==> Within(h, b)
  }

  lemma HullUnique(a: Option<Span>, b: Option<Span>, members: set<Span>)
    requires IsHull(a, members) && IsHull(b, members)
    ensures a == b
  {
  }

  lemma HullAdd(hull: Option<Span>, members: set<Span>, span: Span)
    requires IsHull(hull, members)
    ensures IsHull(Some(Extent(hull, span)), members + {span})
  {
    var all := members + {span};
    assert span in all;
    assert hull.Some? ==> Covers(hull.value, members);
    forall b | Covers(b, all)
      ensures Within(Extent(hull, span), b)
    {
      assert Covers(b, members) && Within(span, b);
    }
  }

  lemma SameHull(hull: Option<Span>, a: set<Span>, b: set<Span>)
    requires IsHull(hull, a)
    requires a == {} <==> b == {}
    requires forall c :: Covers(c, a) <==> Covers(c, b)
    ensures IsHull(hull, b)
  {
  }

  // ---------------------------------------------------------------- the history of a channel

  /** The hull of a channel's spans in one segment, as recorded. */
  function RawHull(pushes: seq<ChannelItem>, segment: nat, channel: nat): Option<Span> {
    if |pushes| == 0 then None
    else
      var n := |pushes| - 1;
      var before := RawHull(pushes[..n], segment, channel);
      if pushes[n].segment == segment && pushes[n].channel == channel
      then Some(Extent(before, pushes[n].span)) else before
  }

  /** Whether `item` is one of the channel's spans in the segments joined into `root`. */
  predicate Counts(item: ChannelItem, merged: seq<Join>, abandoned: seq<nat>, root: nat, channel: nat) {
    item.channel == channel && item.segment !in abandoned && Home(merged, item.segment).0 == root
  }

  /** The hull, in `root`'s clock, of the channel's spans in the segments joined into `root`. */
  function ChannelHull(pushes: seq<ChannelItem>, merged: seq<Join>, abandoned: seq<nat>, root: nat,
                       channel: nat): Option<Span> {
    if |pushes| == 0 then None
    else
      var n := |pushes| - 1;
      var before := ChannelHull(pushes[..n], merged, abandoned, root, channel);
      if Counts(pushes[n], merged, abandoned, root, channel)
      then Some(Extent(before, pushes[n].span.Shifted(Home(merged, pushes[n].segment).1))) else before
  }

  ghost function RawMembers(pushes: seq<ChannelItem>, segment: nat, channel: nat): set<Span> {
    set i | 0 <= i < |pushes| && pushes[i].segment == segment && pushes[i].channel == channel :: pushes[i].span
  }

  ghost function ChannelMembers(pushes: seq<ChannelItem>, merged: seq<Join>, abandoned: seq<nat>, root: nat,
                                channel: nat): set<Span> {
    set i | 0 <= i < |pushes| && Counts(pushes[i], merged, abandoned, root, channel)
      :: pushes[i].span.Shifted(Home(merged, pushes[i].segment).1)
  }

  lemma {:induction false} RawHullIsHull(pushes: seq<ChannelItem>, segment: nat, channel: nat)
    ensures IsHull(RawHull(pushes, segment, channel), RawMembers(pushes, segment, channel))
  {
    if |pushes| > 0 {
      var n := |pushes| - 1;
      RawHullIsHull(pushes[..n], segment, channel);
      var before := RawMembers(pushes[..n], segment, channel);
      if pushes[n].segment == segment && pushes[n].channel == channel {
        HullAdd(RawHull(pushes[..n], segment, channel), before, pushes[n].span);
        assert RawMembers(pushes, segment, channel) == before + {pushes[n].span};
      } else {
        assert RawMembers(pushes, segment, channel) == before;
      }
    }
  }

  lemma {:induction false} ChannelHullIsHull(pushes: seq<ChannelItem>, merged: seq<Join>, abandoned: seq<nat>,
                                             root: nat, channel: nat)
    ensures IsHull(ChannelHull(pushes, merged, abandoned, root, channel),
                   ChannelMembers(pushes, merged, abandoned, root, channel))
  {
    if |pushes| > 0 {
      var n := |pushes| - 1;
      ChannelHullIsHull(pushes[..n], merged, abandoned, root, channel);
      var before := ChannelMembers(pushes[..n], merged, abandoned, root, channel);
      if Counts(pushes[n], merged, abandoned, root, channel) {
        var x := pushes[n].span.Shifted(Home(merged, pushes[n].segment).1);
        HullAdd(ChannelHull(pushes[..n], merged, abandoned, root, channel), before, x);
        assert ChannelMembers(pushes, merged, abandoned, root, channel) == before + {x};
      } else {
        assert ChannelMembers(pushes, merged, abandoned, root, channel) == before;
      }
    }
  }

  /** A bound above every segment number in use. */
  function SegmentBound(pushes: seq<ChannelItem>, merged: seq<Join>): (n: nat)
    ensures forall i :: 0 <= i < |pushes| ==> pushes[i].segment < n
    ensures forall i :: 0 <= i < |merged| ==> merged[i].into < n
  {
    if |pushes| > 0 then Max(SegmentBound(pushes[..|pushes| - 1], merged), pushes[|pushes| - 1].segment + 1)
    else if |merged| > 0 then Max(SegmentBound(pushes, merged[..|merged| - 1]), merged[|merged| - 1].into + 1)
    else 0
  }

  function ChannelLengths(pushes: seq<ChannelItem>, merged: seq<Join>, abandoned: seq<nat>, channel: nat,
                          count: nat): (r: seq<nat>)
    ensures |r| == count
    ensures forall k :: 0 <= k < count ==> r[k] == LenOption(ChannelHull(pushes, merged, abandoned, k, channel))
  {
    seq(count, (k: nat) => LenOption(ChannelHull(pushes, merged, abandoned, k, channel)))
  }

  function ChannelPresence(pushes: seq<ChannelItem>, merged: seq<Join>, abandoned: seq<nat>, channel: nat,
                           count: nat): (r: seq<nat>)
    ensures |r| == count
    ensures forall k ::
            0 <= k < count ==> r[k] == if ChannelHull(pushes, merged, abandoned, k, channel).Some? then 1 else 0
  {
    seq(count, (k: nat) => if ChannelHull(pushes, merged, abandoned, k, channel).Some? then 1 else 0)
  }

  /** What the channel's history comes to over segments `0..count`. */
  function ExtentOver(pushes: seq<ChannelItem>, merged: seq<Join>, abandoned: seq<nat>, channel: nat,
                      count: nat): ChannelExtent {
    ChannelExtent(Sum(ChannelLengths(pushes, merged, abandoned, channel, count)),
                  Sum(ChannelPresence(pushes, merged, abandoned, channel, count)))
  }

  /** What the channel's history comes to over every segment in use. */
  function ExtentOf(pushes: seq<ChannelItem>, merged: seq<Join>, abandoned: seq<nat>, channel: nat): ChannelExtent {
    ExtentOver(pushes, merged, abandoned, channel, SegmentBound(pushes, merged))
  }

  lemma {:induction false} UnusedSegment(pushes: seq<ChannelItem>, merged: seq<Join>, abandoned: seq<nat>,
                                         channel: nat, root: nat)
    requires SegmentBound(pushes, merged) <= root
    ensures ChannelHull(pushes, merged, abandoned, root, channel) == None
  {
    if |pushes| > 0 {
      var n := |pushes| - 1;
      UnusedSegment(pushes[..n], merged, abandoned, channel, root);
      HomeBounded(merged, pushes[n].segment, SegmentBound(pushes, merged) - 1);
    }
  }

  /** Counting over more segments than are in use adds nothing. */
  lemma {:induction false} ExtentStable(pushes: seq<ChannelItem>, merged: seq<Join>, abandoned: seq<nat>,
                                        channel: nat, count: nat)
    requires SegmentBound(pushes, merged) <= count
    ensures ExtentOver(pushes, merged, abandoned, channel, count) == ExtentOf(pushes, merged, abandoned, channel)
  {
    if SegmentBound(pushes, merged) < count {
      ExtentStable(pushes, merged, abandoned, channel, count - 1);
      UnusedSegment(pushes, merged, abandoned, channel, count - 1);
      assert ChannelLengths(pushes, merged, abandoned, channel, count)[..count - 1]
          == ChannelLengths(pushes, merged, abandoned, channel, count - 1);
      assert ChannelPresence(pushes, merged, abandoned, channel, count)[..count - 1]
          == ChannelPresence(pushes, merged, abandoned, channel, count - 1);
    }
  }

  // ---------------------------------------------------------------- following the joins

  /** The join list as the lookup table the traversal uses. */
  ghost predicate TableOf(into: map<nat, (nat, int)>, merged: seq<Join>) {
    && (forall k :: k in into <==> IsSource(merged, k))
    && (forall i :: 0 <= i < |merged| ==> into[merged[i].from] == (merged[i].into, merged[i].offset))
  }

  /** Following one join from a segment in use leads to the same home. */
  lemma {:induction false} HomeFollows(merged: seq<Join>, i: nat)
    requires Forest(merged) && i < |merged|
    ensures Home(merged, merged[i].from).0 == Home(merged, merged[i].into).0
    ensures Home(merged, merged[i].from).1 == merged[i].offset + Home(merged, merged[i].into).1
  {
    var n := |merged| - 1;
    assert forall k :: 0 <= k < n ==> merged[..n][k] == merged[k];
    if i == n {
      HomeOfUnjoined(merged[..n], merged[n].from);
      HomeOfUnjoined(merged[..n], merged[n].into);
    } else {
      HomeFollows(merged[..n], i);
    }
  }

  // ---------------------------------------------------------------- joining the recorded hulls

  predicate KeyCounts(key: (nat, nat), merged: seq<Join>, abandoned: seq<nat>, root: nat, channel: nat) {
    key.1 == channel && key.0 !in abandoned && Home(merged, key.0).0 == root
  }

  ghost function KeyMembers(open: map<(nat, nat), Span>, keys: set<(nat, nat)>, merged: seq<Join>, abandoned: seq<nat>,
                            root: nat, channel: nat): set<Span>
    requires keys <= open.Keys
  {
    set k | k in keys && KeyCounts(k, merged, abandoned, root, channel) :: open[k].Shifted(Home(merged, k.0).1)
  }

  function Lookup<K, V>(m: map<K, V>, k: K): Option<V> {
    if k in m then Some(m[k]) else None
  }

  ghost predicate OpenHolds(open: map<(nat, nat), Span>, pushes: seq<ChannelItem>) {
    forall s: nat, c: nat {:trigger RawHull(pushes, s, c)} ::
      RawHull(pushes, s, c) == Lookup(open, (s, c))
  }

  /** Every span is covered by the hull recorded for its segment and channel. */
  lemma RecordedCovers(pushes: seq<ChannelItem>, open: map<(nat, nat), Span>, i: nat)
    requires OpenHolds(open, pushes) && i < |pushes|
    ensures var k := (pushes[i].segment, pushes[i].channel);
            k in open && open[k].start <= pushes[i].span.start && pushes[i].span.end <= open[k].end
  {
    RawHullIsHull(pushes, pushes[i].segment, pushes[i].channel);
    assert pushes[i].span in RawMembers(pushes, pushes[i].segment, pushes[i].channel);
    assert RawHull(pushes, pushes[i].segment, pushes[i].channel)
        == Lookup(open, (pushes[i].segment, pushes[i].channel));
  }

  /** A span covering every span recorded for a segment and channel, each
      moved alike, covers their recorded hull moved that way. */
  lemma RecordedLeast(pushes: seq<ChannelItem>, open: map<(nat, nat), Span>, segment: nat, channel: nat, offset: int,
                      c: Span)
    requires OpenHolds(open, pushes) && (segment, channel) in open
    requires forall i :: 0 <= i < |pushes| && pushes[i].segment == segment && pushes[i].channel == channel ==>
                         Within(pushes[i].span.Shifted(offset), c)
    ensures Within(open[(segment, channel)].Shifted(offset), c)
  {
    assert RawHull(pushes, segment, channel) == Lookup(open, (segment, channel));
    RawShiftedLeast(pushes, segment, channel, offset, c);
  }

  lemma {:induction false} RawShiftedLeast(pushes: seq<ChannelItem>, segment: nat, channel: nat, offset: int, c: Span)
    requires RawHull(pushes, segment, channel).Some?
    requires forall i :: 0 <= i < |pushes| && pushes[i].segment == segment && pushes[i].channel == channel ==>
                         Within(pushes[i].span.Shifted(offset), c)
    ensures Within(RawHull(pushes, segment, channel).value.Shifted(offset), c)
  {
    var n := |pushes| - 1;
    if RawHull(pushes[..n], segment, channel).Some? {
      RawShiftedLeast(pushes[..n], segment, channel, offset, c);
    }
  }

  /** The recorded hulls, moved and joined, are the hull of every span they
      were recorded from: moving commutes with taking hulls. */
  lemma JoinedIsChannelHull(pushes: seq<ChannelItem>, open: map<(nat, nat), Span>,
                            merged: seq<Join>, abandoned: seq<nat>,
                            root: nat, channel: nat, hull: Option<Span>)
    requires OpenHolds(open, pushes)
    requires IsHull(hull, KeyMembers(open, open.Keys, merged, abandoned, root, channel))
    ensures hull == ChannelHull(pushes, merged, abandoned, root, channel)
  {
    var members := ChannelMembers(pushes, merged, abandoned, root, channel);
    var joined := KeyMembers(open, open.Keys, merged, abandoned, root, channel);
    forall c
      ensures Covers(c, joined) ==> Covers(c, members)
    {
      if Covers(c, joined) {
        JoinedCoversMembers(pushes, open, merged, abandoned, root, channel, c);
      }
    }
    forall c
      ensures Covers(c, members) ==> Covers(c, joined)
    {
      if Covers(c, members) {
        MembersCoverJoined(pushes, open, merged, abandoned, root, channel, c);
      }
    }
    assert joined == {} <==> members == {} by {
      SameEmptiness(pushes, open, merged, abandoned, root, channel);
    }
    SameHull(hull, joined, members);
    ChannelHullIsHull(pushes, merged, abandoned, root, channel);
    HullUnique(hull, ChannelHull(pushes, merged, abandoned, root, channel), members);
  }

  lemma JoinedCoversMembers(pushes: seq<ChannelItem>, open: map<(nat, nat), Span>, merged: seq<Join>,
                            abandoned: seq<nat>,
                            root: nat, channel: nat, c: Span)
    requires OpenHolds(open, pushes)
    requires Covers(c, KeyMembers(open, open.Keys, merged, abandoned, root, channel))
    ensures Covers(c, ChannelMembers(pushes, merged, abandoned, root, channel))
  {
    forall i | 0 <= i < |pushes| && Counts(pushes[i], merged, abandoned, root, channel)
      ensures Within(pushes[i].span.Shifted(Home(merged, pushes[i].segment).1), c)
    {
      RecordedCovers(pushes, open, i);
      var k := (pushes[i].segment, channel);
      assert open[k].Shifted(Home(merged, k.0).1) in KeyMembers(open, open.Keys, merged, abandoned, root, channel);
    }
  }

  lemma MembersCoverJoined(pushes: seq<ChannelItem>, open: map<(nat, nat), Span>, merged: seq<Join>,
                           abandoned: seq<nat>,
                           root: nat, channel: nat, c: Span)
    requires OpenHolds(open, pushes)
    requires Covers(c, ChannelMembers(pushes, merged, abandoned, root, channel))
    ensures Covers(c, KeyMembers(open, open.Keys, merged, abandoned, root, channel))
  {
    forall k | k in open && KeyCounts(k, merged, abandoned, root, channel)
      ensures Within(open[k].Shifted(Home(merged, k.0).1), c)
    {
      var offset := Home(merged, k.0).1;
      forall i | 0 <= i < |pushes| && pushes[i].segment == k.0 && pushes[i].channel == channel
        ensures Within(pushes[i].span.Shifted(offset), c)
      {
        assert pushes[i].span.Shifted(offset) in ChannelMembers(pushes, merged, abandoned, root, channel);
      }
      RecordedLeast(pushes, open, k.0, channel, offset, c);
    }
  }

  lemma SameEmptiness(pushes: seq<ChannelItem>, open: map<(nat, nat), Span>, merged: seq<Join>, abandoned: seq<nat>,
                      root: nat, channel: nat)
    requires OpenHolds(open, pushes)
    ensures KeyMembers(open, open.Keys, merged, abandoned, root, channel) == {}
       <==> ChannelMembers(pushes, merged, abandoned, root, channel) == {}
  {
    var members := ChannelMembers(pushes, merged, abandoned, root, channel);
    var joined := KeyMembers(open, open.Keys, merged, abandoned, root, channel);
    if x :| x in members {
      var i :| 0 <= i < |pushes| && Counts(pushes[i], merged, abandoned, root, channel);
      RecordedCovers(pushes, open, i);
      assert open[(pushes[i].segment, channel)].Shifted(Home(merged, pushes[i].segment).1) in joined;
    }
    if y :| y in joined {
      var k :| k in open && KeyCounts(k, merged, abandoned, root, channel);
      RawHullIsHull(pushes, k.0, channel);
      assert RawHull(pushes, k.0, channel) == Lookup(open, (k.0, channel));
      var i :| 0 <= i < |pushes| && pushes[i].segment == k.0 && pushes[i].channel == channel;
      assert pushes[i].span.Shifted(Home(merged, k.0).1) in members;
    }
  }

  function DoneLengths(joined: map<(nat, nat), Span>, done: set<(nat, nat)>, channel: nat, count: nat): (r: seq<nat>)
    requires done <= joined.Keys
    ensures |r| == count
    ensures forall k: nat :: k < count ==> r[k] == if (k, channel) in done then joined[(k, channel)].Len() else 0
  {
    seq(count, (k: nat) => if (k, channel) in done then joined[(k, channel)].Len() else 0)
  }

  function DonePresence(done: set<(nat, nat)>, channel: nat, count: nat): (r: seq<nat>)
    ensures |r| == count
    ensures forall k: nat :: k < count ==> r[k] == if (k, channel) in done then 1 else 0
  {
    seq(count, (k: nat) => if (k, channel) in done then 1 else 0)
  }

  /** The extent of a channel over the joined spans counted so far. */
  function DoneExtent(joined: map<(nat, nat), Span>, done: set<(nat, nat)>, channel: nat, count: nat): ChannelExtent
    requires done <= joined.Keys
  {
    ChannelExtent(Sum(DoneLengths(joined, done, channel, count)), Sum(DonePresence(done, channel, count)))
  }

  lemma DoneNothing(joined: map<(nat, nat), Span>, done: set<(nat, nat)>, channel: nat, count: nat)
    requires done <= joined.Keys
    requires forall k: nat :: (k, channel) !in done
    ensures DoneExtent(joined, done, channel, count) == ChannelExtent(0, 0)
  {
    SumZeros(DoneLengths(joined, done, channel, count));
    SumZeros(DonePresence(done, channel, count));
  }

  lemma {:induction false} SumZeros(s: seq<nat>)
    requires forall k :: 0 <= k < |s| ==> s[k] == 0
    ensures Sum(s) == 0
  {
    if |s| > 0 {
      SumZeros(s[..|s| - 1]);
    }
  }

  lemma DoneOneMore(joined: map<(nat, nat), Span>, done: set<(nat, nat)>, key: (nat, nat), channel: nat, count: nat)
    requires done <= joined.Keys && key in joined && key !in done && key.0 < count
    ensures DoneExtent(joined, done + {key}, channel, count) ==
            var before := DoneExtent(joined, done, channel, count);
            if key.1 == channel then ChannelExtent(before.spanNs + joined[key].Len(), before.segments + 1) else before
  {
    var lengths, presence := DoneLengths(joined, done, channel, count), DonePresence(done, channel, count);
    var lengths' := DoneLengths(joined, done + {key}, channel, count);
    var presence' := DonePresence(done + {key}, channel, count);
    if key.1 == channel {
      assert lengths' == lengths[key.0 := joined[key].Len()];
      assert presence' == presence[key.0 := 1];
      SumUpdate(lengths, key.0, joined[key].Len());
      SumUpdate(presence, key.0, 1);
    } else {
      assert lengths' == lengths && presence' == presence;
    }
  }

  /** `joined` holds every channel's hull in every surviving segment. */
  ghost predicate Joined(joined: map<(nat, nat), Span>, pushes: seq<ChannelItem>, merged: seq<Join>,
                         abandoned: seq<nat>) {
    forall r: nat, c: nat {:trigger ChannelHull(pushes, merged, abandoned, r, c)} ::
      ChannelHull(pushes, merged, abandoned, r, c) == Lookup(joined, (r, c))
  }

  lemma AllDone(joined: map<(nat, nat), Span>, pushes: seq<ChannelItem>, merged: seq<Join>,
                abandoned: seq<nat>, channel: nat)
    requires Joined(joined, pushes, merged, abandoned)
    ensures DoneExtent(joined, joined.Keys, channel, SegmentBound(pushes, merged))
            == ExtentOf(pushes, merged, abandoned, channel)
  {
    var count := SegmentBound(pushes, merged);
    assert DoneLengths(joined, joined.Keys, channel, count)
        == ChannelLengths(pushes, merged, abandoned, channel, count);
    assert DonePresence(joined.Keys, channel, count) == ChannelPresence(pushes, merged, abandoned, channel, count);
  }

  lemma JoinedBounded(joined: map<(nat, nat), Span>, pushes: seq<ChannelItem>, merged: seq<Join>,
                      abandoned: seq<nat>)
    requires Joined(joined, pushes, merged, abandoned)
    ensures forall key <- joined :: key.0 < SegmentBound(pushes, merged)
  {
    forall key | key in joined
      ensures key.0 < SegmentBound(pushes, merged)
    {
      assert ChannelHull(pushes, merged, abandoned, key.0, key.1) == Lookup(joined, (key.0, key.1));
      if SegmentBound(pushes, merged) <= key.0 {
        UnusedSegment(pushes, merged, abandoned, key.1, key.0);
      }
    }
  }

  function ChannelsOf(keys: set<(nat, nat)>): set<nat> {
    set k | k in keys :: k.1
  }

  function TotalOf(totals: map<nat, ChannelExtent>, channel: nat): ChannelExtent {
    if channel in totals then totals[channel] else ChannelExtent(0, 0)
  }

  ghost predicate Totalled(totals: map<nat, ChannelExtent>, joined: map<(nat, nat), Span>, done: set<(nat, nat)>,
                           count: nat)
    requires done <= joined.Keys
  {
    forall c: nat {:trigger DoneExtent(joined, done, c, count)} ::
      DoneExtent(joined, done, c, count) == TotalOf(totals, c)
  }

  /** `totals` with one more segment's span counted for `channel`. */
  function WithSpan(totals: map<nat, ChannelExtent>, channel: nat, span: Span): map<nat, ChannelExtent> {
    var total := TotalOf(totals, channel);
    totals[channel := ChannelExtent(total.spanNs + span.Len(), total.segments + 1)]
  }

  lemma NothingTotalled(dropped: map<nat, ChannelExtent>, joined: map<(nat, nat), Span>, count: nat)
    requires forall c <- dropped :: dropped[c] == ChannelExtent(0, 0)
    ensures Totalled(dropped, joined, {}, count)
  {
    forall c: nat
      ensures DoneExtent(joined, {}, c, count) == ChannelExtent(0, 0)
    {
      DoneNothing(joined, {}, c, count);
    }
  }

  lemma AllTotalled(totals: map<nat, ChannelExtent>, joined: map<(nat, nat), Span>,
                    pushes: seq<ChannelItem>,
                    merged: seq<Join>, abandoned: seq<nat>)
    requires Joined(joined, pushes, merged, abandoned)
    requires Totalled(totals, joined, joined.Keys, SegmentBound(pushes, merged))
    ensures forall c: nat :: c in totals ==> totals[c] == ExtentOf(pushes, merged, abandoned, c)
  {
    forall c: nat | c in totals
      ensures totals[c] == ExtentOf(pushes, merged, abandoned, c)
    {
      AllDone(joined, pushes, merged, abandoned, c);
      assert DoneExtent(joined, joined.Keys, c, SegmentBound(pushes, merged)) == totals[c];
    }
  }

  lemma TotalOneMore(totals: map<nat, ChannelExtent>, joined: map<(nat, nat), Span>, done: set<(nat, nat)>,
                     key: (nat, nat), count: nat)
    requires done <= joined.Keys && key in joined && key !in done && key.0 < count
    requires Totalled(totals, joined, done, count)
    ensures Totalled(WithSpan(totals, key.1, joined[key]), joined, done + {key}, count)
    ensures WithSpan(totals, key.1, joined[key]).Keys == totals.Keys + {key.1}
  {
    forall c: nat
      ensures DoneExtent(joined, done + {key}, c, count) ==
              var before := DoneExtent(joined, done, c, count);
              if key.1 == c then ChannelExtent(before.spanNs + joined[key].Len(), before.segments + 1) else before
    {
      DoneOneMore(joined, done, key, c, count);
    }
  }

  ghost predicate HullsJoined(joined: map<(nat, nat), Span>, open: map<(nat, nat), Span>, done: set<(nat, nat)>,
                              merged: seq<Join>, abandoned: seq<nat>)
    requires done <= open.Keys
  {
    forall r: nat, c: nat {:trigger Lookup(joined, (r, c))} ::
      IsHull(Lookup(joined, (r, c)), KeyMembers(open, done, merged, abandoned, r, c))
  }

  ghost predicate ChannelsJoined(joined: map<(nat, nat), Span>, dropped: map<nat, ChannelExtent>,
                                 done: set<(nat, nat)>) {
    && dropped.Keys + ChannelsOf(joined.Keys) == ChannelsOf(done)
    && (forall c <- dropped :: dropped[c] == ChannelExtent(0, 0))
  }

  /** The spans of `done`, joined or dropped. */
  ghost predicate JoinedSoFar(joined: map<(nat, nat), Span>, dropped: map<nat, ChannelExtent>,
                              open: map<(nat, nat), Span>,
                              done: set<(nat, nat)>, merged: seq<Join>, abandoned: seq<nat>) {
    && done <= open.Keys
    && HullsJoined(joined, open, done, merged, abandoned)
    && ChannelsJoined(joined, dropped, done)
  }

  lemma NothingJoined(open: map<(nat, nat), Span>, merged: seq<Join>, abandoned: seq<nat>)
    ensures JoinedSoFar(map[], map[], open, {}, merged, abandoned)
  {
    forall r: nat, c: nat
      ensures KeyMembers(open, {}, merged, abandoned, r, c) == {}
    {
    }
  }

  lemma ChannelsOfMore(keys: set<(nat, nat)>, key: (nat, nat))
    ensures ChannelsOf(keys + {key}) == ChannelsOf(keys) + {key.1}
  {
    assert key in keys + {key};
  }

  lemma DropOneMore(joined: map<(nat, nat), Span>, dropped: map<nat, ChannelExtent>, open: map<(nat, nat), Span>,
                    done: set<(nat, nat)>, key: (nat, nat), merged: seq<Join>, abandoned: seq<nat>)
    requires JoinedSoFar(joined, dropped, open, done, merged, abandoned)
    requires key in open && key.0 in abandoned
    ensures JoinedSoFar(joined, dropped[key.1 := ChannelExtent(0, 0)], open, done + {key}, merged, abandoned)
  {
    ChannelsOfMore(done, key);
    forall r: nat, c: nat
      ensures KeyMembers(open, done + {key}, merged, abandoned, r, c) == KeyMembers(open, done, merged, abandoned, r, c)
    {
    }
  }

  lemma JoinOneMore(joined: map<(nat, nat), Span>, dropped: map<nat, ChannelExtent>,
                    open: map<(nat, nat), Span>,
                    done: set<(nat, nat)>, key: (nat, nat), merged: seq<Join>, abandoned: seq<nat>)
    requires JoinedSoFar(joined, dropped, open, done, merged, abandoned)
    requires key in open && key.0 !in abandoned
    ensures var (home, offset) := Home(merged, key.0);
            var slot := (home, key.1);
            var span := open[key].Shifted(offset);
            JoinedSoFar(joined[slot := if slot in joined then joined[slot].Merge(span) else span], dropped,
                        open, done + {key}, merged, abandoned)
  {
    var (home, offset) := Home(merged, key.0);
    var slot := (home, key.1);
    var span := open[key].Shifted(offset);
    var after := joined[slot := if slot in joined then joined[slot].Merge(span) else span];
    assert ChannelsJoined(after, dropped, done + {key}) by {
      ChannelsOfMore(done, key);
      ChannelsOfMore(joined.Keys, slot);
      assert after.Keys == joined.Keys + {slot};
    }
    forall r: nat, c: nat
      ensures IsHull(Lookup(after, (r, c)), KeyMembers(open, done + {key}, merged, abandoned, r, c))
    {
      assert IsHull(Lookup(joined, (r, c)), KeyMembers(open, done, merged, abandoned, r, c));
      JoinOneMoreHull(Lookup(joined, (r, c)), open, done, key, merged, abandoned, r, c);
    }
  }

  lemma JoinOneMoreHull(hull: Option<Span>, open: map<(nat, nat), Span>, done: set<(nat, nat)>,
                        key: (nat, nat),
                        merged: seq<Join>, abandoned: seq<nat>, r: nat, c: nat)
    requires done <= open.Keys && key in open && key.0 !in abandoned
    requires IsHull(hull, KeyMembers(open, done, merged, abandoned, r, c))
    ensures var (home, offset) := Home(merged, key.0);
            IsHull(if (r, c) == (home, key.1) then Some(Extent(hull, open[key].Shifted(offset))) else hull,
                   KeyMembers(open, done + {key}, merged, abandoned, r, c))
  {
    var (home, offset) := Home(merged, key.0);
    var members := KeyMembers(open, done, merged, abandoned, r, c);
    if (r, c) == (home, key.1) {
      HullAdd(hull, members, open[key].Shifted(offset));
      assert KeyMembers(open, done + {key}, merged, abandoned, r, c) == members + {open[key].Shifted(offset)};
    } else {
      assert KeyMembers(open, done + {key}, merged, abandoned, r, c) == members;
    }
  }

  class ChannelSpans {
    var open: map<(nat, nat), Span>
    ghost var pushes: seq<ChannelItem>

    ghost predicate Valid()
      reads this
    {
      OpenHolds(open, pushes)
    }

    constructor ()
      ensures Valid() && pushes == []
    {
      open := map[];
      pushes := [];
    }

    method Push(segment: nat, channel: nat, span: Span)
      requires Valid()
      modifies this
      ensures Valid() && pushes == old(pushes) + [ChannelItem(segment, channel, span)]
    {
      var key := (segment, channel);
      ghost var after := pushes + [ChannelItem(segment, channel, span)];
      assert after[..|pushes|] == pushes;
      assert RawHull(pushes, segment, channel) == Lookup(open, key);
      open := open[key := if key in open then open[key].Merge(span) else span];
      forall s: nat, c: nat
        ensures RawHull(after, s, c) == Lookup(open, (s, c))
      {
        assert RawHull(pushes, s, c) == Lookup(old(open), (s, c));
      }
      pushes := after;
    }

    /** Follows the joins from `segment`. The position in the join list
        strictly increases, so the traversal ends, although the segment
        numbers may go up and down along the way. It never ends in an abandoned
        segment when those are in no join. */
    static method Canonical(into: map<nat, (nat, int)>, ghost merged: seq<Join>, ghost abandoned: seq<nat>,
                            segment: nat)
      returns (home: nat, offset: int)
      requires Forest(merged) && TableOf(into, merged)
      ensures (home, offset) == Home(merged, segment)
      ensures !IsSource(merged, home)
      ensures (forall a <- abandoned :: Unmentioned(merged, a)) && segment !in abandoned ==> home !in abandoned
    {
      home, offset := segment, 0;
      ghost var position := -1;
      while home in into
        invariant -1 <= position < |merged|
        invariant position >= 0 ==> merged[position].into == home
        invariant Home(merged, home).0 == Home(merged, segment).0
        invariant offset + Home(merged, home).1 == Home(merged, segment).1
        decreases |merged| - position
      {
        ghost var next :| 0 <= next < |merged| && merged[next].from == home;
        assert position < next;
        HomeFollows(merged, next);
        position := next;
        var (segment', step) := into[home];
        home := segment';
        offset := offset + step;
      }
      HomeOfUnjoined(merged, home);
      HomeIsRoot(merged, segment);
    }

    static method Table(merged: seq<Join>) returns (into: map<nat, (nat, int)>)
      requires Forest(merged)
      ensures TableOf(into, merged)
    {
      into := map[];
      for i := 0 to |merged|
        invariant forall k :: k in into <==> exists j :: 0 <= j < i && merged[j].from == k
        invariant forall j :: 0 <= j < i ==> into[merged[j].from] == (merged[j].into, merged[j].offset)
      {
        into := into[merged[i].from := (merged[i].into, merged[i].offset)];
      }
    }

    /** Sums each channel's spans, first moving the spans of each joined
        segment to where it was joined. What was pushed to abandoned segments
        counts for nothing, so a channel with no other spans gets an extent of zero. */
    method FinishMerged(merged: seq<Join>, abandoned: seq<nat>) returns (totals: map<nat, ChannelExtent>)
      requires Valid() && Forest(merged)
      ensures forall c: nat :: c in totals <==> exists i :: 0 <= i < |pushes| && pushes[i].channel == c
      ensures forall c: nat :: c in totals ==> totals[c] == ExtentOf(pushes, merged, abandoned, c)
    {
      var joined, dropped := JoinSpans(merged, abandoned);
      JoinedBounded(joined, pushes, merged, abandoned);
      totals := SumExtents(joined, dropped, SegmentBound(pushes, merged));
      AllTotalled(totals, joined, pushes, merged, abandoned);
      forall c: nat
        ensures c in totals <==> exists i :: 0 <= i < |pushes| && pushes[i].channel == c
      {
        KeysAreChannels(c);
        ChannelsAreKeys(c);
      }
    }

    lemma ChannelsAreKeys(channel: nat)
      requires Valid()
      ensures forall i :: 0 <= i < |pushes| && pushes[i].channel == channel ==> (pushes[i].segment, channel) in open
    {
      forall i | 0 <= i < |pushes| && pushes[i].channel == channel
        ensures (pushes[i].segment, channel) in open
      {
        RawHullIsHull(pushes, pushes[i].segment, channel);
        assert pushes[i].span in RawMembers(pushes, pushes[i].segment, channel);
      }
    }

    lemma KeysAreChannels(channel: nat)
      requires Valid()
      ensures forall s: nat :: (s, channel) in open ==> exists i :: 0 <= i < |pushes| && pushes[i].channel == channel
    {
      forall s: nat | (s, channel) in open
        ensures exists i :: 0 <= i < |pushes| && pushes[i].channel == channel
      {
        RawHullIsHull(pushes, s, channel);
        assert RawHull(pushes, s, channel).Some?;
        assert RawMembers(pushes, s, channel) != {};
        var x :| x in RawMembers(pushes, s, channel);
      }
    }

    method JoinSpans(merged: seq<Join>, abandoned: seq<nat>)
      returns (joined: map<(nat, nat), Span>, dropped: map<nat, ChannelExtent>)
      requires Valid() && Forest(merged)
      ensures Joined(joined, pushes, merged, abandoned)
      ensures JoinedSoFar(joined, dropped, open, open.Keys, merged, abandoned)
    {
      var into := Table(merged);
      joined, dropped := map[], map[];
      var left := open.Keys;
      ghost var done: set<(nat, nat)> := {};
      NothingJoined(open, merged, abandoned);
      while left != {}
        invariant left !! done && left + done == open.Keys
        invariant JoinedSoFar(joined, dropped, open, done, merged, abandoned)
        decreases left
      {
        var key :| key in left;
        left := left - {key};
        var (segment, channel) := key;
        if segment in abandoned {
          DropOneMore(joined, dropped, open, done, key, merged, abandoned);
          dropped := dropped[channel := if channel in dropped then dropped[channel] else ChannelExtent(0, 0)];
        } else {
          var home, offset := Canonical(into, merged, abandoned, segment);
          JoinOneMore(joined, dropped, open, done, key, merged, abandoned);
          var span := open[key].Shifted(offset);
          var slot := (home, channel);
          joined := joined[slot := if slot in joined then joined[slot].Merge(span) else span];
        }
        done := done + {key};
      }
      assert done == open.Keys;
      forall r: nat, c: nat
        ensures ChannelHull(pushes, merged, abandoned, r, c) == Lookup(joined, (r, c))
      {
        JoinedIsChannelHull(pushes, open, merged, abandoned, r, c, Lookup(joined, (r, c)));
      }
    }

    /** Adds up the joined spans, channel by channel. */
    static method SumExtents(joined: map<(nat, nat), Span>, dropped: map<nat, ChannelExtent>, ghost count: nat)
      returns (totals: map<nat, ChannelExtent>)
      requires forall key <- joined :: key.0 < count
      requires forall c <- dropped :: dropped[c] == ChannelExtent(0, 0)
      ensures totals.Keys == dropped.Keys + ChannelsOf(joined.Keys)
      ensures Totalled(totals, joined, joined.Keys, count)
    {
      totals := dropped;
      var left := joined.Keys;
      ghost var done: set<(nat, nat)> := {};
      NothingTotalled(dropped, joined, count);
      while left != {}
        invariant left !! done && left + done == joined.Keys
        invariant totals.Keys == dropped.Keys + ChannelsOf(done)
        invariant Totalled(totals, joined, done, count)
        decreases left
      {
        var key :| key in left;
        left := left - {key};
        TotalOneMore(totals, joined, done, key, count);
        ChannelsOfMore(done, key);
        totals := WithSpan(totals, key.1, joined[key]);
        done := done + {key};
      }
      assert done == joined.Keys;
    }
  }
}
