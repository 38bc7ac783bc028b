/** A stray excursion leaves no trace: pushing one and coming back is the same
    as never pushing it, whatever is pushed afterwards. */
module StrayExcursion {
  import opened Spans
  import opened Timeline
  import opened Conservation

  // ---------------------------------------------------------------- pending pauses

  /** What a pending gap says about the state, in range or not. */
  predicate GapShape(s: State) {
    && GapInv(s)
    && (s.previous.Some? && s.previous.value.gap.Some? ==> !s.previous.value.gap.value.kind.PauseGap?)
    && (s.last == None ==> s.earlier == None)
  }

  lemma SettledShape(s: State)
    requires s.previous.Some? && s.previous.value.gap.Some? ==> !s.previous.value.gap.value.kind.PauseGap?
    requires PausePending(s) ==> s.previous.Some? && s.last.Some?
    requires s.gap.Some? ==> s.last.Some?
    requires s.last == None ==> s.earlier == None
    ensures GapShape(SettlePause(s)) && !PausePending(SettlePause(s))
    ensures SettlePause(s).last == s.last
  {
  }

  lemma PushShape(s: State, span: Span)
    requires GapShape(s)
    ensures GapShape(Push(s, span))
  {
    SettledShape(s);
    var a := AfterJump(s, span);
    var e := Extend(a, span);
    if OpenExtent(e).Len() > STEP_GAP_NS {
      SettledShape(e);
    }
  }

  lemma RecordStepShape(s: State, step: int, trimLast: bool)
    requires GapShape(s)
    ensures GapShape(RecordStep(s, step, trimLast))
  {
    SettledShape(s);
  }

  /** In every reachable state a pause is pending only while the data after
      the jump is short, and the segment before it is still at hand. */
  lemma {:induction false} ReachableShape(authoritative: bool, events: seq<Event>)
    ensures GapShape(Run(authoritative, events).state)
  {
    if |events| > 0 {
      var n := |events| - 1;
      ReachableShape(authoritative, events[..n]);
      var s := Run(authoritative, events[..n]).state;
      match events[n]
      case Pushed(span) => PushShape(s, span);
      case Stepped(size) => RecordStepShape(s, size, false);
      case SteppedUnresolved(size) => RecordStepShape(s, size, true);
    }
  }

  // ---------------------------------------------------------------- the same up to one unused segment number

  function PushAll(s: State, spans: seq<Span>): State {
    if |spans| == 0 then s else Push(PushAll(s, spans[..|spans| - 1]), spans[|spans| - 1])
  }

  /** The state after one call. */
  function Next(s: State, event: Event): State {
    match event
    case Pushed(span) => Push(s, span)
    case Stepped(size) => RecordStep(s, size, false)
    case SteppedUnresolved(size) => RecordStep(s, size, true)
  }

  function After(s: State, events: seq<Event>): State {
    if |events| == 0 then s else Next(After(s, events[..|events| - 1]), events[|events| - 1])
  }

  /** Segment `k` once the number after `unused` has been skipped. */
  function Renamed(unused: nat, k: nat): nat {
    if k <= unused then k else k + 1
  }

  function RenamedJoins(unused: nat, merged: seq<Join>): (r: seq<Join>)
    ensures |r| == |merged|
    ensures forall i :: 0 <= i < |merged| ==>
              r[i] == Join(Renamed(unused, merged[i].from), Renamed(unused, merged[i].into), merged[i].offset)
  {
    seq(|merged|, i requires 0 <= i < |merged| =>
      Join(Renamed(unused, merged[i].from), Renamed(unused, merged[i].into), merged[i].offset))
  }

  function RenamedClosed(unused: nat, previous: Option<Closed>): Option<Closed> {
    match previous
    case None => None
    case Some(p) => Some(p.(segment := Renamed(unused, p.segment)))
  }

  /** `b` abandoned what `a` did, and the skipped segment. */
  ghost predicate AbandonedOneMore(a: seq<nat>, b: seq<nat>, unused: nat) {
    forall k: nat :: k in b <==> k == unused + 1 || exists j <- a :: Renamed(unused, j) == k
  }

  /** A long open segment is never dropped or joined by a later span. */
  predicate LongOpen(s: State) {
    s.last.Some? && OpenExtent(s).Len() > STEP_GAP_NS && !PausePending(s)
  }

  /** `b` is `a` with one segment number skipped. The segments closed before
      the open one may differ while the open one is long. */
  ghost predicate SameButSkipped(a: State, b: State, unused: nat) {
    && b.authoritative == a.authoritative
    && b.total == a.total && b.steps == a.steps
    && b.earlier == a.earlier && b.last == a.last && b.gap == a.gap
    && b.segment == Renamed(unused, a.segment)
    && unused <= a.nextSegment && b.nextSegment == a.nextSegment + 1
    && b.merged == RenamedJoins(unused, a.merged)
    && AbandonedOneMore(a.abandoned, b.abandoned, unused)
    && (b.previous == RenamedClosed(unused, a.previous) || (LongOpen(a) && a.nextSegment == unused))
    && (a.nextSegment == unused ==> b.previous == None)
  }

  lemma SkippedSettle(a: State, b: State, unused: nat)
    requires SameButSkipped(a, b, unused)
    ensures SameButSkipped(SettlePause(a), SettlePause(b), unused)
  {
    if PausePending(a) && a.previous.Some? {
      var join := Join(a.segment, a.previous.value.segment, 0);
      var renamed := Join(b.segment, b.previous.value.segment, 0);
      assert RenamedJoins(unused, a.merged + [join]) == RenamedJoins(unused, a.merged) + [renamed];
    }
  }

  lemma SkippedClose(a: State, b: State, unused: nat)
    requires SameButSkipped(a, b, unused)
    ensures SameButSkipped(Close(a, None), Close(b, None), unused)
  {
  }

  lemma SkippedReopen(a: State, b: State, unused: nat)
    requires SameButSkipped(a, b, unused) && a.gap.Some? && a.previous.Some?
             && b.previous == RenamedClosed(unused, a.previous)
    ensures SameButSkipped(Reopened(a), Reopened(b), unused)
  {
    forall k: nat
      ensures k in b.abandoned + [b.segment] <==> k == unused + 1 || exists j <- a.abandoned + [a.segment] ::
              Renamed(unused, j) == k
    {
      if k == b.segment {
        assert a.segment in a.abandoned + [a.segment];
      }
      if j :| j in a.abandoned && Renamed(unused, j) == k {
        assert j in a.abandoned + [a.segment];
      }
    }
  }

  lemma SkippedAfterJump(a: State, b: State, unused: nat, span: Span)
    requires SameButSkipped(a, b, unused)
    ensures SameButSkipped(AfterJump(a, span), AfterJump(b, span), unused)
    ensures LongOpen(a) && !Jumps(a, span) ==> LongOpen(AfterJump(a, span))
  {
    if Jumps(a, span) {
      if ReturnsFromExcursion(a, span) {
        SkippedReopen(a, b, unused);
      } else {
        SkippedSettle(a, b, unused);
        SkippedClose(SettlePause(a), SettlePause(b), unused);
      }
    }
  }

  lemma SkippedExtend(a: State, b: State, unused: nat, span: Span)
    requires SameButSkipped(a, b, unused)
    ensures SameButSkipped(Extend(a, span), Extend(b, span), unused)
  {
  }

  lemma SkippedPush(a: State, b: State, unused: nat, span: Span)
    requires SameButSkipped(a, b, unused)
    ensures SameButSkipped(Push(a, span), Push(b, span), unused)
  {
    SkippedAfterJump(a, b, unused, span);
    SkippedExtend(AfterJump(a, span), AfterJump(b, span), unused, span);
    SkippedSettle(Extend(AfterJump(a, span), span), Extend(AfterJump(b, span), span), unused);
  }

  /** The record is found to describe the gap before the open segment, with a pause beside
      the step, so that the open segment would be joined to the one before it: one closed
      before the excursion, when no segment has been closed since. */
  predicate JoinsEarlier(a: State, unused: nat, event: Event) {
    && a.nextSegment == unused && a.previous.Some? && a.authoritative && !event.Pushed?
    && var described := Described(a, event.size);
    described.Some? && described.value > 0
  }

  /** Whether some record among `events` does. */
  predicate FindsPause(s: State, unused: nat, events: seq<Event>) {
    |events| > 0 &&
      var n := |events| - 1;
      FindsPause(s, unused, events[..n]) || JoinsEarlier(After(s, events[..n]), unused, events[n])
  }

  lemma SkippedCloseTrimmed(a: State, b: State, unused: nat, trim: Option<nat>)
    requires SameButSkipped(a, b, unused)
    ensures SameButSkipped(Close(a, trim), Close(b, trim), unused)
  {
  }

  lemma SkippedJoin(a: State, b: State, unused: nat, size: int, paused: nat)
    requires SameButSkipped(a, b, unused) && b.previous == RenamedClosed(unused, a.previous)
    ensures SameButSkipped(JoinAcrossStep(a, size, paused), JoinAcrossStep(b, size, paused), unused)
  {
    if a.previous.Some? {
      var join := Join(a.previous.value.segment, a.segment, size);
      var renamed := Join(b.previous.value.segment, b.segment, size);
      assert RenamedJoins(unused, a.merged + [join]) == RenamedJoins(unused, a.merged) + [renamed];
    }
  }

  lemma SkippedConfirmed(a: State, b: State, unused: nat)
    requires SameButSkipped(a, b, unused) && a.gap.Some?
    ensures var steps := if a.gap.value.kind.StepGap? then a.steps else a.steps + 1;
            SameButSkipped(a.(gap := None, steps := steps), b.(gap := None, steps := steps), unused)
  {
  }

  lemma SkippedRecord(a: State, b: State, unused: nat, size: int, trimLast: bool)
    requires SameButSkipped(a, b, unused)
    requires !JoinsEarlier(a, unused, if trimLast then SteppedUnresolved(size) else Stepped(size))
    ensures SameButSkipped(RecordStep(a, size, trimLast), RecordStep(b, size, trimLast), unused)
  {
    hide SameButSkipped, Close, SettlePause, JoinAcrossStep, DescribedBy;
    SkippedFields(a, b, unused);
    match Described(a, size)
    case Some(paused) =>
      SkippedConfirmed(a, b, unused);
      if a.authoritative && paused > 0 {
        var steps := if a.gap.value.kind.StepGap? then a.steps else a.steps + 1;
        SkippedJoin(a.(gap := None, steps := steps), b.(gap := None, steps := steps), unused, size, paused);
      }
    case None =>
      var trim := if trimLast then Some(Abs(size)) else None;
      SkippedSettle(a, b, unused);
      var settledA, settledB := SettlePause(a).(gap := None), SettlePause(b).(gap := None);
      SkippedNoGap(SettlePause(a), SettlePause(b), unused);
      SkippedCloseTrimmed(settledA, settledB, unused, trim);
      SkippedCounted(Close(settledA, trim), Close(settledB, trim), unused);
  }

  lemma SkippedFields(a: State, b: State, unused: nat)
    requires SameButSkipped(a, b, unused)
    ensures b.authoritative == a.authoritative && b.gap == a.gap && b.last == a.last && b.steps == a.steps
    ensures b.previous == RenamedClosed(unused, a.previous) || (a.nextSegment == unused && b.previous == None)
  {
  }

  lemma SkippedNoGap(a: State, b: State, unused: nat)
    requires SameButSkipped(a, b, unused)
    ensures SameButSkipped(a.(gap := None), b.(gap := None), unused)
  {
  }

  lemma SkippedCounted(a: State, b: State, unused: nat)
    requires SameButSkipped(a, b, unused)
    ensures SameButSkipped(a.(steps := a.steps + 1), b.(steps := b.steps + 1), unused)
  {
  }

  lemma {:induction false} SkippedAfter(a: State, b: State, unused: nat, events: seq<Event>)
    requires SameButSkipped(a, b, unused) && !FindsPause(a, unused, events)
    ensures SameButSkipped(After(a, events), After(b, events), unused)
  {
    hide SameButSkipped, Push, RecordStep, JoinsEarlier;
    if |events| > 0 {
      var n := |events| - 1;
      SkippedAfter(a, b, unused, events[..n]);
      var c, d := After(a, events[..n]), After(b, events[..n]);
      match events[n]
      case Pushed(span) => SkippedPush(c, d, unused, span);
      case Stepped(size) => SkippedRecord(c, d, unused, size, false);
      case SteppedUnresolved(size) => SkippedRecord(c, d, unused, size, true);
    }
  }

  /** The same report, and the same surviving segments but for the skipped one. */
  ghost predicate SameOutcome(a: State, b: State, unused: nat) {
    && Finish(b) == Finish(a)
    && !Survives(Finished(b), unused + 1)
    && forall k: nat :: Survives(Finished(b), Renamed(unused, k)) <==> Survives(Finished(a), k)
  }

  lemma SurvivesRenamed(a: State, b: State, unused: nat, k: nat)
    requires SameButSkipped(a, b, unused)
    ensures Survives(b, Renamed(unused, k)) <==> Survives(a, k)
  {
    assert IsSource(b.merged, Renamed(unused, k)) <==> IsSource(a.merged, k) by {
      if i :| 0 <= i < |a.merged| && a.merged[i].from == k {
        assert b.merged[i].from == Renamed(unused, k);
      }
      if i :| 0 <= i < |b.merged| && b.merged[i].from == Renamed(unused, k) {
        assert a.merged[i].from == k;
      }
    }
  }

  lemma SkippedOutcome(a: State, b: State, unused: nat)
    requires SameButSkipped(a, b, unused)
    ensures SameOutcome(a, b, unused)
  {
    SkippedSettle(a, b, unused);
    SkippedClose(SettlePause(a), SettlePause(b), unused);
    var f, g := Finished(a), Finished(b);
    forall k: nat
      ensures Survives(g, Renamed(unused, k)) <==> Survives(f, k)
    {
      SurvivesRenamed(f, g, unused, k);
    }
  }

  // ---------------------------------------------------------------- the excursion

  /** `spans` all lie within `window`. */
  predicate InWindow(spans: seq<Span>, window: Span) {
    forall i :: 0 <= i < |spans| ==> window.start <= spans[i].start <= spans[i].end <= window.end
  }

  /** The state `s` is in while on an excursion of spans within `window`. */
  predicate OnExcursion(s: State, t: State, window: Span)
    requires s.last.Some?
  {
    var duration := OpenExtent(s).Len();
    && t.authoritative == s.authoritative
    && t.total == s.total + duration
    && t.steps == (if s.authoritative then s.steps else s.steps + 1)
    && t.segment == t.nextSegment == s.nextSegment + 1
    && t.previous == Some(Closed(s.segment, s.earlier, s.last.value, duration, s.gap))
    && t.gap.Some? && (t.gap.value.kind.StepGap? <==> !s.authoritative)
    && t.merged == s.merged && t.abandoned == s.abandoned
    && t.last.Some?
    && window.start <= t.last.value.start <= t.last.value.end <= window.end
    && window.start <= OpenExtent(t).start && OpenExtent(t).end <= window.end
  }

  lemma {:induction false} Excursion(s: State, spans: seq<Span>, window: Span)
    requires LongOpen(s) && CloseFits(s)
    requires InWindow(spans, window) && window.end - window.start <= STEP_GAP_NS
    requires |spans| > 0 && Jumps(s, spans[0])
    ensures OnExcursion(s, PushAll(s, spans), window)
    ensures PushAll(s, spans).last.value == spans[|spans| - 1]
  {
    var n := |spans| - 1;
    if n == 0 {
      assert PushAll(s, spans[..n]) == s;
    } else {
      Excursion(s, spans[..n], window);
      StayOnExcursion(s, PushAll(s, spans[..n]), window, spans[n]);
    }
  }

  lemma StayOnExcursion(s: State, t: State, window: Span, next: Span)
    requires s.last.Some? && OnExcursion(s, t, window)
    requires window.start <= next.start <= next.end <= window.end && window.end - window.start <= STEP_GAP_NS
    ensures OnExcursion(s, Push(t, next), window)
    ensures Push(t, next).last == Some(next)
  {
  }

  lemma ReturnFromExcursion(s: State, t: State, window: Span, back: Span)
    requires LongOpen(s) && CloseFits(s)
    requires window.end - window.start <= STEP_GAP_NS
    requires OnExcursion(s, t, window) && Jumps(t, back)
    requires Abs(back.start - s.last.value.end) <= STEP_GAP_NS
    requires JoinForest(s)
    ensures SameButSkipped(Push(s, back), Push(t, back), s.nextSegment)
  {
    var unused := s.nextSegment;
    var r := Reopened(t);
    assert ReturnsFromExcursion(t, back);
    assert RenamedJoins(unused, s.merged) == r.merged;
    forall k: nat
      ensures k in r.abandoned <==> k == unused + 1 || exists j <- s.abandoned :: Renamed(unused, j) == k
    {
      assert k in s.abandoned ==> Renamed(unused, k) == k;
    }
    assert SameButSkipped(s, r, unused);
    SkippedExtend(s, r, unused, back);
    SkippedSettle(Extend(s, back), Extend(r, back), unused);
    assert Push(s, back) == SettleIfLong(Extend(s, back));
    assert Push(t, back) == SettleIfLong(Extend(r, back));
  }

  /** `spans` is a stray excursion from `s` that `back` returns from. */
  predicate Stray(s: State, spans: seq<Span>, window: Span, back: Span) {
    && s.last.Some? && OpenExtent(s).Len() > STEP_GAP_NS
    && |spans| > 0 && Jumps(s, spans[0])
    && InWindow(spans, window) && window.end - window.start <= STEP_GAP_NS
    && Abs(back.start - spans[|spans| - 1].end) > STEP_GAP_NS
    && Abs(back.start - s.last.value.end) <= STEP_GAP_NS
  }

  lemma ComeBack(s: State, spans: seq<Span>, window: Span, back: Span)
    requires GapShape(s) && JoinForest(s) && CloseFits(s) && Stray(s, spans, window, back)
    ensures SameButSkipped(Push(s, back), Push(PushAll(s, spans), back), s.nextSegment)
  {
    Excursion(s, spans, window);
    ReturnFromExcursion(s, PushAll(s, spans), window, back);
  }

  // ---------------------------------------------------------------- when a pause is found after all

  lemma {:induction false} ForestAfter(s: State, events: seq<Event>)
    requires JoinForest(s)
    ensures JoinForest(After(s, events))
  {
    hide JoinForest, Push, RecordStep;
    if |events| > 0 {
      var n := |events| - 1;
      ForestAfter(s, events[..n]);
      match events[n]
      case Pushed(span) => PushForest(After(s, events[..n]), span);
      case Stepped(size) => RecordStepForest(After(s, events[..n]), size, false);
      case SteppedUnresolved(size) => RecordStepForest(After(s, events[..n]), size, true);
    }
  }

  /** Segment `k` survives and nothing can be joined to it or make it part of a join any more. */
  predicate Detached(s: State, k: nat) {
    && k <= s.nextSegment && k != s.segment && Survives(s, k)
    && (s.previous.Some? ==> s.previous.value.segment != k)
  }

  lemma StaysDetached(s: State, k: nat, event: Event)
    requires Detached(s, k)
    ensures Detached(Next(s, event), k)
  {
    match event
    case Pushed(span) => PushDetached(s, k, span);
    case Stepped(size) => RecordDetached(s, k, size, false);
    case SteppedUnresolved(size) => RecordDetached(s, k, size, true);
  }

  lemma JoinDetached(merged: seq<Join>, join: Join, k: nat)
    requires !IsSource(merged, k) && join.from != k
    ensures !IsSource(merged + [join], k)
  {
  }

  lemma SettleDetached(s: State, k: nat)
    requires Detached(s, k)
    ensures Detached(SettlePause(s), k)
  {
    if PausePending(s) && s.previous.Some? {
      JoinDetached(s.merged, Join(s.segment, s.previous.value.segment, 0), k);
    }
  }

  lemma PushDetached(s: State, k: nat, span: Span)
    requires Detached(s, k)
    ensures Detached(Push(s, span), k)
  {
    SettleDetached(s, k);
    SettleDetached(Extend(AfterJump(s, span), span), k);
  }

  lemma RecordDetached(s: State, k: nat, size: int, trimLast: bool)
    requires Detached(s, k)
    ensures Detached(RecordStep(s, size, trimLast), k)
  {
    SettleDetached(s, k);
    if s.previous.Some? {
      JoinDetached(s.merged, Join(s.previous.value.segment, s.segment, size), k);
    }
  }

  lemma StaysJoined(s: State, k: nat, event: Event)
    requires IsSource(s.merged, k)
    ensures IsSource(Next(s, event).merged, k)
  {
    var i :| 0 <= i < |s.merged| && s.merged[i].from == k;
    var t := Next(s, event);
    assert |t.merged| >= |s.merged| && t.merged[i] == s.merged[i] by {
      match event
      case Pushed(span) => PushExtends(s, span);
      case Stepped(size) =>
      case SteppedUnresolved(size) =>
    }
  }

  lemma PushExtends(s: State, span: Span)
    ensures s.merged <= Push(s, span).merged
  {
    assert s.merged <= AfterJump(s, span).merged;
  }

  /** The record joins the earlier segment without the excursion, and leaves it alone with it. */
  lemma PauseFound(a: State, b: State, unused: nat, event: Event)
    requires SameButSkipped(a, b, unused) && JoinForest(a) && JoinsEarlier(a, unused, event)
    ensures var p := a.previous.value.segment;
            IsSource(Next(a, event).merged, p) && Detached(Next(b, event), Renamed(unused, p))
  {
    var p := a.previous.value.segment;
    SurvivesRenamed(a, b, unused, p);
    var join := Join(p, a.segment, event.size);
    assert (a.merged + [join])[|a.merged|].from == p;
    assert Next(a, event).merged == a.merged + [join];
  }

  lemma {:induction false} Diverges(a: State, b: State, unused: nat, events: seq<Event>) returns (p: nat)
    requires SameButSkipped(a, b, unused) && JoinForest(a) && FindsPause(a, unused, events)
    ensures IsSource(After(a, events).merged, p) && Detached(After(b, events), Renamed(unused, p))
  {
    hide SameButSkipped, Push, RecordStep, JoinsEarlier, JoinForest, Detached, IsSource;
    var n := |events| - 1;
    var c, d := After(a, events[..n]), After(b, events[..n]);
    if FindsPause(a, unused, events[..n]) {
      p := Diverges(a, b, unused, events[..n]);
      StaysJoined(c, p, events[n]);
      StaysDetached(d, Renamed(unused, p), events[n]);
    } else {
      SkippedAfter(a, b, unused, events[..n]);
      ForestAfter(a, events[..n]);
      PauseFound(c, d, unused, events[n]);
      p := EarlierSegment(c, unused, events[n]);
    }
  }

  lemma EarlierSegment(a: State, unused: nat, event: Event) returns (p: nat)
    requires JoinsEarlier(a, unused, event)
    ensures a.previous.Some? && p == a.previous.value.segment
  {
    p := a.previous.value.segment;
  }

  lemma DivergedOutcome(a: State, b: State, unused: nat, p: nat)
    requires IsSource(a.merged, p) && Detached(b, Renamed(unused, p))
    ensures !SameOutcome(a, b, unused)
  {
    var i :| 0 <= i < |a.merged| && a.merged[i].from == p;
    assert Finished(a).merged[i] == a.merged[i];
    assert !Survives(Finished(a), p);
    SettleDetached(b, Renamed(unused, p));
    assert Survives(Finished(b), Renamed(unused, p));
  }

  // ---------------------------------------------------------------- the theorem

  /** From any reachable state whose open segment spans more than the gap threshold: a
      run of spans no longer than the threshold after a jump larger than it, then a span
      that jumps away again and resumes near the old end, is the same as that span alone,
      for every continuation by spans and records, if and only if no record in it finds a
      pause before the segment that was open all along. */
  lemma ExcursionNeutral(authoritative: bool, events: seq<Event>, spans: seq<Span>, window: Span,
                         back: Span, rest: seq<Event>)
    requires var s := Run(authoritative, events).state;
             CloseFits(s) && Stray(s, spans, window, back)
    ensures var s := Run(authoritative, events).state;
            var without, with := After(Push(s, back), rest), After(Push(PushAll(s, spans), back), rest);
            SameOutcome(without, with, s.nextSegment) <==> !FindsPause(Push(s, back), s.nextSegment, rest)
  {
    hide SameButSkipped, FindsPause, JoinForest, Stray, SameOutcome, Run, CloseFits, GapShape, Push, PushAll, After,
        Detached, IsSource;
    var s := Run(authoritative, events).state;
    var a, b := Push(s, back), Push(PushAll(s, spans), back);
    ReachableShape(authoritative, events);
    ReachableForest(authoritative, events);
    ComeBack(s, spans, window, back);
    PushForest(s, back);
    if FindsPause(a, s.nextSegment, rest) {
      var p := Diverges(a, b, s.nextSegment, rest);
      DivergedOutcome(After(a, rest), After(b, rest), s.nextSegment, p);
    } else {
      SkippedAfter(a, b, s.nextSegment, rest);
      SkippedOutcome(After(a, rest), After(b, rest), s.nextSegment);
    }
  }

  /** In particular for every continuation by spans, and for every continuation when
      records are not authoritative. */
  lemma {:induction false} PushesFindNothing(s: State, unused: nat, events: seq<Event>)
    requires (forall i :: 0 <= i < |events| ==> events[i].Pushed?) || !s.authoritative
    ensures !FindsPause(s, unused, events)
  {
    if |events| > 0 {
      var n := |events| - 1;
      PushesFindNothing(s, unused, events[..n]);
      SameMode(s, events[..n]);
    }
  }

  lemma {:induction false} SameMode(s: State, events: seq<Event>)
    ensures After(s, events).authoritative == s.authoritative
  {
    if |events| > 0 {
      SameMode(s, events[..|events| - 1]);
    }
  }
}
