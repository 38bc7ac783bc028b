/** Duration conservation: the running totals of the timeline state machine
    agree, in every reachable state, with a definition over the whole history
    of spans pushed. */
module Conservation {
  import opened Spans
  import opened Timeline

  /** A span and the segment that was open once it had been pushed. */
  datatype Item = Item(segment: nat, span: Span)

  // ---------------------------------------------------------------- joins

  predicate IsSource(merged: seq<Join>, segment: nat) {
    exists i :: 0 <= i < |merged| && merged[i].from == segment
  }

  predicate Unmentioned(merged: seq<Join>, segment: nat) {
    forall i :: 0 <= i < |merged| ==> merged[i].from != segment && merged[i].into != segment
  }

  /** Each segment is joined into another at most once, and a segment joined
      into can itself be joined away only later in the list. */
  predicate Forest(merged: seq<Join>) {
    && (forall i, j :: 0 <= i < j < |merged| ==> merged[i].from != merged[j].from)
    && (forall i, j :: 0 <= i <= j < |merged| ==> merged[i].from != merged[j].into)
  }

  /** The segment that `segment` ends up in, and by how much it moves. */
  function Home(merged: seq<Join>, segment: nat): (nat, int) {
    if |merged| == 0 then (segment, 0)
    else
      var last := merged[|merged| - 1];
      var home := Home(merged[..|merged| - 1], segment);
      if home.0 == last.from then (last.into, home.1 + last.offset) else home
  }

  lemma HomeJoin(merged: seq<Join>, join: Join, segment: nat)
    ensures Home(merged + [join], segment) ==
            var home := Home(merged, segment);
            if home.0 == join.from then (join.into, home.1 + join.offset) else home
  {
    assert (merged + [join])[..|merged|] == merged;
  }

  lemma {:induction false} HomeOfUnjoined(merged: seq<Join>, segment: nat)
    requires !IsSource(merged, segment)
    ensures Home(merged, segment) == (segment, 0)
  {
    if |merged| > 0 {
      var n := |merged| - 1;
      assert forall i :: 0 <= i < n ==> merged[..n][i] == merged[i];
      HomeOfUnjoined(merged[..n], segment);
    }
  }

  /** A segment's home was not joined away, and is mentioned in a join unless
      it is the segment itself. */
  lemma {:induction false} HomeIsRoot(merged: seq<Join>, segment: nat)
    requires Forest(merged)
    ensures !IsSource(merged, Home(merged, segment).0)
    ensures Home(merged, segment).0 == segment || !Unmentioned(merged, Home(merged, segment).0)
  {
    if |merged| > 0 {
      var n := |merged| - 1;
      assert forall i :: 0 <= i < n ==> merged[..n][i] == merged[i];
      HomeIsRoot(merged[..n], segment);
    }
  }

  lemma {:induction false} HomeBounded(merged: seq<Join>, segment: nat, bound: nat)
    requires segment <= bound
    requires forall i :: 0 <= i < |merged| ==> merged[i].into <= bound
    ensures Home(merged, segment).0 <= bound
  {
    if |merged| > 0 {
      HomeBounded(merged[..|merged| - 1], segment, bound);
    }
  }

  // ---------------------------------------------------------------- hulls

  /** The hull, in `root`'s clock, of the spans of every segment joined into
      `root`, leaving out abandoned segments. */
  function Hull(history: seq<Item>, merged: seq<Join>, abandoned: seq<nat>, root: nat): Option<Span> {
    if |history| == 0 then None
    else
      var n := |history| - 1;
      var before := Hull(history[..n], merged, abandoned, root);
      var home := Home(merged, history[n].segment);
      if history[n].segment in abandoned || home.0 != root then before
      else Some(Extent(before, history[n].span.Moved(home.1)))
  }

  lemma HullAppend(history: seq<Item>, item: Item, merged: seq<Join>, abandoned: seq<nat>, root: nat)
    ensures Hull(history + [item], merged, abandoned, root) ==
            var before := Hull(history, merged, abandoned, root);
            var home := Home(merged, item.segment);
            if item.segment in abandoned || home.0 != root then before
            else Some(Extent(before, item.span.Moved(home.1)))
  {
    assert (history + [item])[..|history|] == history;
  }

  /** Joining `join.from` into `join.into` moves its whole hull there. */
  lemma {:induction false} HullJoin(history: seq<Item>, merged: seq<Join>, join: Join, abandoned: seq<nat>, root: nat)
    requires join.from != join.into
    ensures Hull(history, merged + [join], abandoned, root) ==
            if root == join.from then None
            else if root == join.into then
              MergeOption(Hull(history, merged, abandoned, root),
                          MovedOption(Hull(history, merged, abandoned, join.from), join.offset))
            else Hull(history, merged, abandoned, root)
  {
    hide Home;
    if |history| > 0 {
      var n := |history| - 1;
      HullJoin(history[..n], merged, join, abandoned, root);
      HomeJoin(merged, join, history[n].segment);
    }
  }

  /** Abandoning a segment that takes part in no join empties its hull and
      leaves the others alone. */
  lemma {:induction false} HullAbandon(history: seq<Item>, merged: seq<Join>, abandoned: seq<nat>, segment: nat,
                                       root: nat)
    requires Forest(merged) && Unmentioned(merged, segment)
    ensures Hull(history, merged, abandoned + [segment], root) ==
            if root == segment then None else Hull(history, merged, abandoned, root)
  {
    if |history| > 0 {
      var n := |history| - 1;
      HullAbandon(history[..n], merged, abandoned, segment, root);
      HomeIsRoot(merged, history[n].segment);
      HomeOfUnjoined(merged, segment);
    }
  }

  /** Nothing survives in a segment that was joined away or abandoned, or that no span reached. */
  lemma {:induction false} HullEmpty(history: seq<Item>, merged: seq<Join>, abandoned: seq<nat>, root: nat)
    requires Forest(merged)
    requires || IsSource(merged, root)
             || (root in abandoned && Unmentioned(merged, root))
             || (Unmentioned(merged, root) && forall i :: 0 <= i < |history| ==> history[i].segment != root)
    ensures Hull(history, merged, abandoned, root) == None
  {
    if |history| > 0 {
      var n := |history| - 1;
      HullEmpty(history[..n], merged, abandoned, root);
      HomeIsRoot(merged, history[n].segment);
    }
  }

  /** The length of every segment's hull, by segment number. */
  function Lengths(history: seq<Item>, merged: seq<Join>, abandoned: seq<nat>, count: nat): (r: seq<nat>)
    ensures |r| == count
    ensures forall k :: 0 <= k < count ==> r[k] == LenOption(Hull(history, merged, abandoned, k))
  {
    seq(count, (k: nat) => LenOption(Hull(history, merged, abandoned, k)))
  }

  // ---------------------------------------------------------------- the invariant

  function OpenExtent(s: State): Span
    requires s.last.Some?
  {
    Extent(s.earlier, s.last.value)
  }

  function LengthsOf(s: State, history: seq<Item>): seq<nat> {
    Lengths(history, s.merged, s.abandoned, s.nextSegment + 1)
  }

  predicate SegmentsInv(s: State, history: seq<Item>) {
    && Forest(s.merged)
    && (forall i :: 0 <= i < |s.merged| ==> s.merged[i].from <= s.nextSegment && s.merged[i].into <= s.nextSegment)
    && (forall a :: a in s.abandoned ==> a <= s.nextSegment && Unmentioned(s.merged, a))
    && (forall i :: 0 <= i < |history| ==> history[i].segment <= s.nextSegment)
    && s.segment <= s.nextSegment
    && !IsSource(s.merged, s.segment)
    && s.segment !in s.abandoned
  }

  predicate OpenInv(s: State, history: seq<Item>) {
    match s.last
    case None => s.earlier == None && Hull(history, s.merged, s.abandoned, s.segment) == None
    case Some(last) =>
      var n := |history| - 1;
      && 0 <= n
      && history[n].span == last
      && history[n].segment !in s.abandoned
      && Home(s.merged, history[n].segment) == (s.segment, 0)
      && Hull(history[..n], s.merged, s.abandoned, s.segment) == s.earlier
  }

  predicate PreviousInv(s: State, history: seq<Item>) {
    s.previous.Some? ==>
      var p := s.previous.value;
      && p.segment != s.segment
      && p.segment <= s.nextSegment
      && p.segment !in s.abandoned
      && !IsSource(s.merged, p.segment)
      && Unmentioned(s.merged, s.segment)
      && Hull(history, s.merged, s.abandoned, p.segment) == Some(Extent(p.earlier, p.last))
      && p.duration == Extent(p.earlier, p.last).Len()
      && !(p.gap.Some? && p.gap.value.kind.PauseGap?)
  }

  predicate TotalInv(s: State, history: seq<Item>, pauses: nat) {
    s.total + LenOption(Hull(history, s.merged, s.abandoned, s.segment)) == Sum(LengthsOf(s, history)) + pauses
  }

  predicate Core(s: State, history: seq<Item>, pauses: nat) {
    && SegmentsInv(s, history)
    && OpenInv(s, history)
    && PreviousInv(s, history)
    && TotalInv(s, history, pauses)
  }

  predicate PausePending(s: State) {
    s.gap.Some? && s.gap.value.kind.PauseGap?
  }

  predicate GapInv(s: State) {
    && (s.gap.Some? ==> s.last.Some?)
    && (PausePending(s) ==> s.previous.Some? && s.last.Some? && OpenExtent(s).Len() <= STEP_GAP_NS)
  }

  predicate Inv(s: State, history: seq<Item>, pauses: nat) {
    Core(s, history, pauses) && GapInv(s)
  }

  lemma OpenHull(s: State, history: seq<Item>)
    requires OpenInv(s, history) && s.last.Some?
    ensures Hull(history, s.merged, s.abandoned, s.segment) == Some(OpenExtent(s))
  {
    assert s.last.value.Moved(0) == s.last.value;
  }

  /** The closed segments' durations cover the previous segment's. */
  lemma PreviousInTotal(s: State, history: seq<Item>, pauses: nat)
    requires Core(s, history, pauses) && s.previous.Some?
    ensures s.previous.value.duration <= s.total
  {
    var lengths := LengthsOf(s, history);
    var p := s.previous.value;
    SumUpdate(lengths, s.segment, 0);
    SumElement(lengths[s.segment := 0], p.segment);
  }

  // ---------------------------------------------------------------- each operation

  /** A segment that was not abandoned never ends up in one that was. */
  lemma HomeSurvives(s: State, segment: nat)
    requires JoinForest(s) && segment !in s.abandoned
    ensures Survives(s, Home(s.merged, segment).0)
  {
    HomeIsRoot(s.merged, segment);
  }

  /** Joining the previous segment and the open one, either way round. */
  lemma JoinTotals(s: State, history: seq<Item>, join: Join)
    requires SegmentsInv(s, history) && PreviousInv(s, history) && s.previous.Some?
    requires (join.from, join.into) == (s.segment, s.previous.value.segment)
          || (join.into, join.from) == (s.segment, s.previous.value.segment)
    ensures Sum(Lengths(history, s.merged + [join], s.abandoned, s.nextSegment + 1))
         == Sum(LengthsOf(s, history))
            - LenOption(Hull(history, s.merged, s.abandoned, join.from))
            - LenOption(Hull(history, s.merged, s.abandoned, join.into))
            + LenOption(Hull(history, s.merged + [join], s.abandoned, join.into))
  {
    var before := LengthsOf(s, history);
    var after := Lengths(history, s.merged + [join], s.abandoned, s.nextSegment + 1);
    forall k | 0 <= k <= s.nextSegment
      ensures after[k] == before[join.from := 0][join.into := after[join.into]][k]
    {
      HullJoin(history, s.merged, join, s.abandoned, k);
    }
    assert after == before[join.from := 0][join.into := after[join.into]];
    SumUpdate(before, join.from, 0);
    SumUpdate(before[join.from := 0], join.into, after[join.into]);
  }

  lemma ForestGrows(merged: seq<Join>, join: Join)
    requires Forest(merged) && !IsSource(merged, join.from) && !IsSource(merged, join.into) && join.from != join.into
    ensures Forest(merged + [join])
  {
  }

  lemma JoinSegments(s: State, history: seq<Item>, join: Join)
    requires SegmentsInv(s, history) && PreviousInv(s, history) && s.previous.Some?
    requires (join.from, join.into) == (s.segment, s.previous.value.segment)
          || (join.into, join.from) == (s.segment, s.previous.value.segment)
    ensures SegmentsInv(s.(merged := s.merged + [join], segment := join.into), history)
  {
    ForestGrows(s.merged, join);
    forall a | a in s.abandoned
      ensures Unmentioned(s.merged + [join], a)
    {
      assert Unmentioned(s.merged, a);
    }
  }

  lemma SettlePauseOpen(s: State, history: seq<Item>)
    requires SegmentsInv(s, history) && OpenInv(s, history) && PreviousInv(s, history)
    requires PausePending(s) && s.previous.Some? && s.last.Some?
    ensures OpenInv(SettlePause(s), history)
  {
    var p := s.previous.value;
    var join := Join(s.segment, p.segment, 0);
    var n := |history| - 1;
    HomeJoin(s.merged, join, history[n].segment);
    HullJoin(history[..n], s.merged, join, s.abandoned, p.segment);
    HomeOfUnjoined(s.merged, p.segment);
    assert history[..n] + [history[n]] == history;
    HullAppend(history[..n], history[n], s.merged, s.abandoned, p.segment);
    assert s.earlier.Some? ==> s.earlier.value.Moved(0) == s.earlier.value;
  }

  lemma SettlePauseTotal(s: State, history: seq<Item>, pauses: nat)
    requires Core(s, history, pauses)
    requires PausePending(s) && s.previous.Some? && s.last.Some?
    ensures TotalInv(SettlePause(s), history, pauses)
  {
    var join := Join(s.segment, s.previous.value.segment, 0);
    PreviousInTotal(s, history, pauses);
    JoinTotals(s, history, join);
  }

  lemma SettlePauseKeeps(s: State, history: seq<Item>, pauses: nat)
    requires Core(s, history, pauses)
    requires PausePending(s) ==> s.last.Some?
    ensures Core(SettlePause(s), history, pauses)
    ensures SettlePause(s).last == s.last
    ensures PausePending(SettlePause(s)) ==> PausePending(s) && s.previous == None
  {
    if PausePending(s) && s.previous.Some? {
      var t := SettlePause(s);
      JoinSegments(s, history, Join(s.segment, s.previous.value.segment, 0));
      SettlePauseOpen(s, history);
      SettlePauseTotal(s, history, pauses);
      assert SegmentsInv(t, history);
      assert PreviousInv(t, history);
    }
  }

  /** The history with the end of its last span moved back by `trim`. */
  function TrimHistory(history: seq<Item>, trim: Option<nat>): seq<Item> {
    if |history| == 0 then history
    else
      var last := history[|history| - 1];
      history[..|history| - 1] + [last.(span := Trimmed(last.span, trim))]
  }

  /** The history after the open segment is closed with `trim`. */
  function HistoryAfterClose(s: State, history: seq<Item>, trim: Option<nat>): seq<Item> {
    if s.last.Some? then TrimHistory(history, trim) else history
  }

  lemma TrimmedLen(last: Span, earlier: Option<Span>, trim: Option<nat>)
    ensures Extent(earlier, Trimmed(last, trim)).Len() <= Extent(earlier, last).Len()
    ensures Trimmed(last, None) == last
  {
  }

  /** Whether the open segment can be closed without overflowing the total. */
  predicate CloseFits(s: State) {
    s.last.Some? ==> s.total + OpenExtent(s).Len() <= U64_MAX
  }

  /** Trimming the last span of the open segment changes that segment's hull only. */
  lemma TrimKeeps(s: State, history: seq<Item>, pauses: nat, trim: Option<nat>)
    requires Core(s, history, pauses) && s.last.Some?
    ensures Core(s.(last := Some(Trimmed(s.last.value, trim))), TrimHistory(history, trim), pauses)
  {
    var n := |history| - 1;
    var trimmed := TrimHistory(history, trim);
    var t := s.(last := Some(Trimmed(s.last.value, trim)));
    assert history == history[..n] + [history[n]];
    assert trimmed[..n] == history[..n];
    forall k
      ensures k != s.segment ==> Hull(trimmed, s.merged, s.abandoned, k) == Hull(history, s.merged, s.abandoned, k)
    {
    }
    var before, after := LengthsOf(s, history), LengthsOf(t, trimmed);
    assert after == before[s.segment := after[s.segment]];
    SumUpdate(before, s.segment, after[s.segment]);
  }

  lemma CloseKeeps(s: State, history: seq<Item>, pauses: nat)
    requires Core(s, history, pauses) && CloseFits(s)
    requires !PausePending(s)
    ensures Core(Close(s, None), history, pauses)
    ensures s.last.Some? ==> Close(s, None).previous.Some?
    ensures Close(s, None).last == None
  {
    if s.last.Some? {
      var t := Close(s, None);
      OpenHull(s, history);
      HullEmpty(history, s.merged, s.abandoned, t.segment);
      var before, after := LengthsOf(s, history), LengthsOf(t, history);
      assert after[..t.segment] == before;
      assert Sum(after) == Sum(before) + after[t.segment];
    }
  }

  lemma CloseTrimmedKeeps(s: State, history: seq<Item>, pauses: nat, trim: Option<nat>)
    requires Core(s, history, pauses) && CloseFits(s)
    requires !PausePending(s)
    ensures Core(Close(s, trim), HistoryAfterClose(s, history, trim), pauses)
    ensures Close(s, trim).last == None
  {
    if s.last.Some? {
      var u := s.(last := Some(Trimmed(s.last.value, trim)));
      TrimKeeps(s, history, pauses, trim);
      TrimmedLen(s.last.value, s.earlier, trim);
      CloseKeeps(u, TrimHistory(history, trim), pauses);
      assert Close(u, None) == Close(s, trim);
    } else {
      CloseKeeps(s, history, pauses);
    }
  }

  /** What holds between dropping an excursion and pushing the span that returned from it. */
  predicate Reopening(s: State, history: seq<Item>, pauses: nat) {
    && SegmentsInv(s, history)
    && s.last.Some? && s.previous == None
    && Hull(history, s.merged, s.abandoned, s.segment) == Some(OpenExtent(s))
    && TotalInv(s, history, pauses)
  }

  lemma ReopenKeeps(s: State, history: seq<Item>, pauses: nat)
    requires Core(s, history, pauses) && s.gap.Some? && s.previous.Some?
    ensures Reopening(Reopened(s), history, pauses)
    ensures !PausePending(Reopened(s))
  {
    var t := Reopened(s);
    var p := s.previous.value;
    PreviousInTotal(s, history, pauses);
    forall k
      ensures Hull(history, t.merged, t.abandoned, k)
              == if k == s.segment then None else Hull(history, s.merged, s.abandoned, k)
    {
      HullAbandon(history, s.merged, s.abandoned, s.segment, k);
    }
    var before, after := LengthsOf(s, history), LengthsOf(t, history);
    assert after == before[s.segment := 0];
    SumUpdate(before, s.segment, 0);
  }

  /** Either the ordinary invariant, or the one between re-opening a segment and extending it. */
  predicate ReadyToExtend(s: State, history: seq<Item>, pauses: nat) {
    Core(s, history, pauses) || Reopening(s, history, pauses)
  }

  lemma ExtendKeeps(s: State, history: seq<Item>, pauses: nat, span: Span)
    requires ReadyToExtend(s, history, pauses)
    ensures Core(Extend(s, span), history + [Item(s.segment, span)], pauses)
  {
    var t := Extend(s, span);
    var item := Item(s.segment, span);
    var longer := history + [item];
    HomeOfUnjoined(s.merged, s.segment);
    if s.last.Some? && Core(s, history, pauses) {
      OpenHull(s, history);
    }
    forall k
      ensures k != s.segment ==> Hull(longer, s.merged, s.abandoned, k) == Hull(history, s.merged, s.abandoned, k)
    {
      HullAppend(history, item, s.merged, s.abandoned, k);
    }
    assert longer[..|history|] == history;
    var before, after := LengthsOf(s, history), LengthsOf(t, longer);
    assert after == before[s.segment := after[s.segment]];
    SumUpdate(before, s.segment, after[s.segment]);
  }

  /** The segment bookkeeping reads neither the pending gap nor the step count. */
  lemma CoreIgnoresGap(s: State, history: seq<Item>, pauses: nat, gap: Option<Gap>, steps: nat)
    requires Core(s, history, pauses)
    ensures Core(s.(gap := gap, steps := steps), history, pauses)
  {
    assert LengthsOf(s.(gap := gap, steps := steps), history) == LengthsOf(s, history);
  }

  lemma OpenAfterJumpKeeps(s: State, history: seq<Item>, pauses: nat, span: Span)
    requires Inv(s, history, pauses) && s.last.Some?
    requires CloseFits(SettlePause(s))
    ensures Core(OpenAfterJump(s, span), history, pauses)
  {
    SettlePauseKeeps(s, history, pauses);
    CloseKeeps(SettlePause(s), history, pauses);
    CoreIgnoresGap(Close(SettlePause(s), None), history, pauses, OpenAfterJump(s, span).gap,
        OpenAfterJump(s, span).steps);
  }

  /** A pause is pending after a jump only if the segment before it was just closed. */
  lemma AfterJumpGap(s: State, history: seq<Item>, pauses: nat, span: Span)
    requires Inv(s, history, pauses)
    ensures var t := AfterJump(s, span);
            PausePending(t) ==> t.previous.Some?
  {
  }

  lemma PushKeeps(s: State, history: seq<Item>, pauses: nat, span: Span)
    requires Inv(s, history, pauses) && CloseFits(SettlePause(s))
    ensures Inv(Push(s, span), history + [Item(Push(s, span).segment, span)], pauses)
  {
    hide Core, Reopening;
    var a := AfterJump(s, span);
    if Jumps(s, span) {
      if ReturnsFromExcursion(s, span) {
        ReopenKeeps(s, history, pauses);
      } else {
        OpenAfterJumpKeeps(s, history, pauses, span);
      }
    }
    ExtendKeeps(a, history, pauses, span);
    AfterJumpGap(s, history, pauses, span);
    var e := Extend(a, span);
    var longer := history + [Item(a.segment, span)];
    if OpenExtent(e).Len() > STEP_GAP_NS {
      SettlePauseKeeps(e, longer, pauses);
      RelabelLast(SettlePause(e), longer, pauses);
      assert longer[..|history|] == history;
    }
  }

  /** The last span can be recorded under the open segment itself: settling a
      pause moves it there without an offset. */
  lemma RelabelLast(s: State, history: seq<Item>, pauses: nat)
    requires Core(s, history, pauses) && s.last.Some?
    ensures var n := |history| - 1;
            Core(s, history[..n] + [Item(s.segment, history[n].span)], pauses)
  {
    var n := |history| - 1;
    var relabelled := history[..n] + [Item(s.segment, history[n].span)];
    HomeOfUnjoined(s.merged, s.segment);
    assert relabelled[..n] == history[..n];
    forall k
      ensures Hull(relabelled, s.merged, s.abandoned, k) == Hull(history, s.merged, s.abandoned, k)
    {
    }
    assert LengthsOf(s, relabelled) == LengthsOf(s, history);
  }

  /** The pause a described step adds to the total for want of a previous segment. */
  function PauseCounted(s: State, step: int): nat {
    match Described(s, step)
    case None => 0
    case Some(paused) => if s.authoritative && s.previous == None then paused else 0
  }

  /** What `step` asks of the 64-bit range: the running total, and the
      previous segment when the step moves it into the open one. */
  predicate StepFits(s: State, step: int) {
    match Described(s, step)
    case None => CloseFits(SettlePause(s))
    case Some(paused) =>
      s.authoritative && paused > 0 ==>
        match s.previous
        case None => s.total + paused <= U64_MAX
        case Some(p) => Extent(p.earlier, p.last).Moved(step).Fits()
  }

  lemma ShiftInRange(span: Span, offset: int)
    requires span.Moved(offset).Fits()
    ensures span.Shifted(offset) == span.Moved(offset)
  {
  }

  lemma JoinAcrossOpen(s: State, history: seq<Item>, step: int, paused: nat)
    requires SegmentsInv(s, history) && OpenInv(s, history) && PreviousInv(s, history)
    requires s.previous.Some? && s.last.Some?
    requires Extent(s.previous.value.earlier, s.previous.value.last).Moved(step).Fits()
    ensures OpenInv(JoinAcrossStep(s, step, paused), history)
  {
    var p := s.previous.value;
    var join := Join(p.segment, s.segment, step);
    var n := |history| - 1;
    ShiftInRange(Extent(p.earlier, p.last), step);
    HomeJoin(s.merged, join, history[n].segment);
    HullJoin(history[..n], s.merged, join, s.abandoned, s.segment);
    HullAppend(history[..n], history[n], s.merged, s.abandoned, p.segment);
    assert history[..n] + [history[n]] == history;
  }

  lemma JoinAcrossTotal(s: State, history: seq<Item>, pauses: nat, step: int, paused: nat)
    requires Core(s, history, pauses) && s.previous.Some? && s.last.Some?
    requires Extent(s.previous.value.earlier, s.previous.value.last).Moved(step).Fits()
    ensures TotalInv(JoinAcrossStep(s, step, paused), history, pauses)
  {
    var p := s.previous.value;
    var join := Join(p.segment, s.segment, step);
    PreviousInTotal(s, history, pauses);
    JoinTotals(s, history, join);
  }

  lemma JoinAcrossKeeps(s: State, history: seq<Item>, pauses: nat, step: int, paused: nat)
    requires Core(s, history, pauses) && s.previous.Some? && s.last.Some? && s.gap == None
    requires Extent(s.previous.value.earlier, s.previous.value.last).Moved(step).Fits()
    ensures Inv(JoinAcrossStep(s, step, paused), history, pauses)
  {
    var t := JoinAcrossStep(s, step, paused);
    var join := Join(s.previous.value.segment, s.segment, step);
    JoinAcrossOpen(s, history, step, paused);
    JoinAcrossTotal(s, history, pauses, step, paused);
    JoinSegments(s, history, join);
    assert SegmentsInv(t, history);
    assert PreviousInv(t, history);
  }

  function TrimOf(step: int, trimLast: bool): Option<nat> {
    if trimLast then Some(Abs(step)) else None
  }

  /** The history after a step: unchanged unless the step closed the open segment with a trim. */
  function HistoryAfterStep(s: State, history: seq<Item>, step: int, trimLast: bool): seq<Item> {
    if trimLast && Described(s, step) == None && s.last.Some? then TrimHistory(history, TrimOf(step, trimLast))
        else history
  }

  lemma ConfirmStepKeeps(s: State, history: seq<Item>, pauses: nat, step: int, trimLast: bool)
    requires Inv(s, history, pauses) && StepFits(s, step) && Described(s, step).Some?
    ensures Inv(RecordStep(s, step, trimLast), history, pauses + PauseCounted(s, step))
  {
    hide Core;
    var paused := Described(s, step).value;
    var confirmed := s.(gap := None, steps := if s.gap.value.kind.StepGap? then s.steps else s.steps + 1);
    CoreIgnoresGap(s, history, pauses, None, confirmed.steps);
    if s.authoritative && paused > 0 {
      if s.previous.Some? {
        JoinAcrossKeeps(confirmed, history, pauses, step, paused);
      } else {
        CountPauseKeeps(confirmed, history, pauses, step, paused);
      }
    }
  }

  lemma CountPauseKeeps(s: State, history: seq<Item>, pauses: nat, step: int, paused: nat)
    requires Core(s, history, pauses) && s.previous == None && s.gap == None && s.total + paused <= U64_MAX
    ensures Inv(JoinAcrossStep(s, step, paused), history, pauses + paused)
  {
    var t := JoinAcrossStep(s, step, paused);
    assert LengthsOf(t, history) == LengthsOf(s, history);
  }

  lemma NewStepKeeps(s: State, history: seq<Item>, pauses: nat, step: int, trimLast: bool)
    requires Inv(s, history, pauses) && StepFits(s, step) && Described(s, step) == None
    ensures Inv(RecordStep(s, step, trimLast), HistoryAfterStep(s, history, step, trimLast), pauses)
  {
    hide Core;
    SettlePauseKeeps(s, history, pauses);
    CoreIgnoresGap(SettlePause(s), history, pauses, None, SettlePause(s).steps);
    NewStepClose(SettlePause(s).(gap := None), history, pauses, TrimOf(step, trimLast));
    HistoryAfterNewStep(s, history, step, trimLast);
  }

  lemma NewStepClose(u: State, history: seq<Item>, pauses: nat, trim: Option<nat>)
    requires Core(u, history, pauses) && CloseFits(u) && u.gap == None
    ensures var closed := Close(u, trim);
            Inv(closed.(steps := closed.steps + 1), HistoryAfterClose(u, history, trim), pauses)
  {
    hide Core;
    CloseTrimmedKeeps(u, history, pauses, trim);
    var closed := Close(u, trim);
    CoreIgnoresGap(closed, HistoryAfterClose(u, history, trim), pauses, closed.gap, closed.steps + 1);
  }

  lemma HistoryAfterNewStep(s: State, history: seq<Item>, step: int, trimLast: bool)
    requires Described(s, step) == None
    ensures HistoryAfterClose(SettlePause(s).(gap := None), history, TrimOf(step, trimLast))
         == HistoryAfterStep(s, history, step, trimLast)
  {
    if |history| > 0 {
      assert history == history[..|history| - 1] + [history[|history| - 1]];
    }
  }

  lemma RecordStepKeeps(s: State, history: seq<Item>, pauses: nat, step: int, trimLast: bool)
    requires Inv(s, history, pauses) && StepFits(s, step)
    ensures Inv(RecordStep(s, step, trimLast), HistoryAfterStep(s, history, step, trimLast),
            pauses + PauseCounted(s, step))
  {
    if Described(s, step) == None {
      NewStepKeeps(s, history, pauses, step, trimLast);
    } else {
      ConfirmStepKeeps(s, history, pauses, step, trimLast);
    }
  }

  // ---------------------------------------------------------------- runs

  /** One call on the accumulator. */
  datatype Event =
    | Pushed(span: Span)
    | Stepped(size: int)
    | SteppedUnresolved(size: int)

  /** The accumulator's state, and what the calls so far have told it. */
  datatype Track = Track(state: State, history: seq<Item>, pauses: nat)

  predicate EventFits(s: State, event: Event) {
    match event
    case Pushed(_) => CloseFits(SettlePause(s))
    case Stepped(size) => StepFits(s, size)
    case SteppedUnresolved(size) => StepFits(s, size)
  }

  function Apply(t: Track, event: Event): Track {
    match event
    case Pushed(span) =>
      var s := Push(t.state, span);
      Track(s, t.history + [Item(s.segment, span)], t.pauses)
    case Stepped(size) =>
      Track(RecordStep(t.state, size, false), t.history, t.pauses + PauseCounted(t.state, size))
    case SteppedUnresolved(size) =>
      Track(RecordStep(t.state, size, true), HistoryAfterStep(t.state, t.history, size, true),
            t.pauses + PauseCounted(t.state, size))
  }

  function Run(authoritative: bool, events: seq<Event>): Track {
    if |events| == 0 then Track(Fresh(authoritative), [], 0)
    else Apply(Run(authoritative, events[..|events| - 1]), events[|events| - 1])
  }

  /** No step along the run leaves the 64-bit range. */
  predicate RunFits(authoritative: bool, events: seq<Event>) {
    |events| > 0 ==>
      && RunFits(authoritative, events[..|events| - 1])
      && EventFits(Run(authoritative, events[..|events| - 1]).state, events[|events| - 1])
  }

  lemma FreshInv(authoritative: bool)
    ensures Inv(Fresh(authoritative), [], 0)
  {
    var s := Fresh(authoritative);
    assert LengthsOf(s, []) == [0];
    assert Sum([0]) == Sum([]) + 0;
  }

  lemma {:induction false} RunKeeps(authoritative: bool, events: seq<Event>)
    requires RunFits(authoritative, events)
    ensures var t := Run(authoritative, events);
            Inv(t.state, t.history, t.pauses)
  {
    if |events| == 0 {
      FreshInv(authoritative);
    } else {
      var n := |events| - 1;
      RunKeeps(authoritative, events[..n]);
      var t := Run(authoritative, events[..n]);
      match events[n]
      case Pushed(span) => PushKeeps(t.state, t.history, t.pauses, span);
      case Stepped(size) => RecordStepKeeps(t.state, t.history, t.pauses, size, false);
      case SteppedUnresolved(size) => RecordStepKeeps(t.state, t.history, t.pauses, size, true);
    }
  }

  /** A segment whose spans count: not joined into another, and not a stray excursion. */
  predicate Survives(s: State, segment: nat) {
    !IsSource(s.merged, segment) && segment !in s.abandoned
  }

  /** A finished timeline reports the lengths of the surviving segments, each
      taken over every span ever pushed to a segment joined into it, plus the
      pauses that had no previous segment to join. */
  predicate Conserved(s: State, history: seq<Item>, pauses: nat) {
    var f := Finished(s);
    var lengths := LengthsOf(f, history);
    && Finish(s).duration == Sum(lengths) + pauses
    && forall k :: 0 <= k < |lengths| && !Survives(f, k) ==> lengths[k] == 0
  }

  lemma FinishConserves(s: State, history: seq<Item>, pauses: nat)
    requires Inv(s, history, pauses) && CloseFits(SettlePause(s))
    ensures Conserved(s, history, pauses)
    ensures Core(Finished(s), history, pauses) && Finished(s).last == None
  {
    SettlePauseKeeps(s, history, pauses);
    CloseKeeps(SettlePause(s), history, pauses);
    var f := Finished(s);
    forall k | 0 <= k <= f.nextSegment && !Survives(f, k)
      ensures LengthsOf(f, history)[k] == 0
    {
      HullEmpty(history, f.merged, f.abandoned, k);
    }
  }

  /** Duration conservation over every run. */
  lemma DurationConservation(authoritative: bool, events: seq<Event>)
    requires RunFits(authoritative, events)
    requires CloseFits(SettlePause(Run(authoritative, events).state))
    ensures var t := Run(authoritative, events);
            Conserved(t.state, t.history, t.pauses)
  {
    var t := Run(authoritative, events);
    RunKeeps(authoritative, events);
    FinishConserves(t.state, t.history, t.pauses);
  }

  // ---------------------------------------------------------------- the join forest

  /** In every reachable state, in range or not, each segment is joined away
      at most once, a segment joined into can be joined away only later, and a
      stray excursion takes part in no join. */
  predicate JoinForest(s: State) {
    && Forest(s.merged)
    && s.segment <= s.nextSegment
    && (forall i :: 0 <= i < |s.merged| ==> s.merged[i].from <= s.nextSegment && s.merged[i].into <= s.nextSegment)
    && (forall a :: a in s.abandoned ==> a <= s.nextSegment && Unmentioned(s.merged, a))
    && Survives(s, s.segment)
    && (s.previous.Some? ==>
          && s.previous.value.segment != s.segment
          && s.previous.value.segment <= s.nextSegment
          && Survives(s, s.previous.value.segment)
          && Unmentioned(s.merged, s.segment))
  }

  /** Joining the previous segment and the open one, either way round. */
  lemma JoinKeepsForest(s: State, join: Join)
    requires JoinForest(s) && s.previous.Some?
    requires (join.from, join.into) == (s.segment, s.previous.value.segment)
          || (join.into, join.from) == (s.segment, s.previous.value.segment)
    ensures JoinForest(s.(merged := s.merged + [join], segment := join.into, previous := None))
  {
    ForestGrows(s.merged, join);
    forall a | a in s.abandoned
      ensures Unmentioned(s.merged + [join], a)
    {
      assert Unmentioned(s.merged, a);
    }
  }

  /** `JoinForest` reads only the segment numbers. */
  lemma ForestFields(s: State, t: State)
    requires JoinForest(s)
    requires s.merged == t.merged && s.abandoned == t.abandoned
    requires s.segment == t.segment && s.nextSegment == t.nextSegment
    requires t.previous.Some? ==> s.previous.Some? && s.previous.value.segment == t.previous.value.segment
    ensures JoinForest(t)
  {
  }

  lemma SettlePauseForest(s: State)
    requires JoinForest(s)
    ensures JoinForest(SettlePause(s))
  {
    if PausePending(s) && s.previous.Some? {
      var join := Join(s.segment, s.previous.value.segment, 0);
      JoinKeepsForest(s, join);
      ForestFields(s.(merged := s.merged + [join], segment := join.into, previous := None), SettlePause(s));
    }
  }

  lemma CloseForest(s: State, trim: Option<nat>)
    requires JoinForest(s)
    ensures JoinForest(Close(s, trim))
  {
  }

  lemma ReopenForest(s: State)
    requires JoinForest(s) && s.gap.Some? && s.previous.Some?
    ensures JoinForest(Reopened(s))
  {
  }

  lemma PushForest(s: State, span: Span)
    requires JoinForest(s)
    ensures JoinForest(Push(s, span))
  {
    if Jumps(s, span) {
      if ReturnsFromExcursion(s, span) {
        ReopenForest(s);
      } else {
        SettlePauseForest(s);
        CloseForest(SettlePause(s), None);
        ForestFields(Close(SettlePause(s), None), OpenAfterJump(s, span));
      }
    }
    var a := AfterJump(s, span);
    ForestFields(a, Extend(a, span));
    SettlePauseForest(Extend(a, span));
  }

  lemma RecordStepForest(s: State, step: int, trimLast: bool)
    requires JoinForest(s)
    ensures JoinForest(RecordStep(s, step, trimLast))
  {
    var t := RecordStep(s, step, trimLast);
    if Described(s, step) == None {
      SettlePauseForest(s);
      var u := SettlePause(s).(gap := None);
      ForestFields(SettlePause(s), u);
      CloseForest(u, TrimOf(step, trimLast));
      ForestFields(Close(u, TrimOf(step, trimLast)), t);
    } else if s.authoritative && Described(s, step).value > 0 && s.previous.Some? {
      var join := Join(s.previous.value.segment, s.segment, step);
      JoinKeepsForest(s, join);
      ForestFields(s.(merged := s.merged + [join], segment := join.into, previous := None), t);
    } else {
      ForestFields(s, t);
    }
  }

  lemma {:induction false} ReachableForest(authoritative: bool, events: seq<Event>)
    ensures JoinForest(Run(authoritative, events).state)
  {
    if |events| > 0 {
      var n := |events| - 1;
      ReachableForest(authoritative, events[..n]);
      var s := Run(authoritative, events[..n]).state;
      match events[n]
      case Pushed(span) => PushForest(s, span);
      case Stepped(size) => RecordStepForest(s, size, false);
      case SteppedUnresolved(size) => RecordStepForest(s, size, true);
    }
  }

  // ---------------------------------------------------------------- what an accumulator maintains

  /** The segments form a forest, and while every call was in range the totals are conserved. */
  predicate Sound(s: State, history: seq<Item>, pauses: nat, inRange: bool) {
    JoinForest(s) && (inRange ==> Inv(s, history, pauses))
  }

  lemma SoundFresh(authoritative: bool)
    ensures Sound(Fresh(authoritative), [], 0, true)
  {
    FreshInv(authoritative);
  }

  lemma SoundPush(s: State, history: seq<Item>, pauses: nat, inRange: bool, span: Span)
    requires Sound(s, history, pauses, inRange)
    ensures Sound(Push(s, span), history + [Item(Push(s, span).segment, span)], pauses, inRange
            && EventFits(s, Pushed(span)))
  {
    PushForest(s, span);
    if inRange && EventFits(s, Pushed(span)) {
      PushKeeps(s, history, pauses, span);
    }
  }

  lemma SoundStep(s: State, history: seq<Item>, pauses: nat, inRange: bool, step: int, trimLast: bool)
    requires Sound(s, history, pauses, inRange)
    ensures Sound(RecordStep(s, step, trimLast), HistoryAfterStep(s, history, step, trimLast),
                  pauses + PauseCounted(s, step), inRange && StepFits(s, step))
  {
    RecordStepForest(s, step, trimLast);
    if inRange && StepFits(s, step) {
      RecordStepKeeps(s, history, pauses, step, trimLast);
    }
  }
}
