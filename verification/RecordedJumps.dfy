/** Which jump a record describes: how soon after it the record has to come, and what
    a record that describes a jump does, as against one that does not. */
module RecordedJumps {
  import opened Spans
  import opened Timeline
  import opened Conservation
  import opened StrayExcursion
  import opened SpanPieces

  // ---------------------------------------------------------------- what a jump is taken for

  /** With authoritative records a jump forward is a pause and one back only divides
      the recording; without them every jump is a step. */
  predicate RightKind(authoritative: bool, gap: Gap) {
    && (gap.jump > STEP_GAP_NS || gap.jump + STEP_GAP_NS < 0)
    && (gap.kind.StepGap? <==> !authoritative)
    && (gap.kind.PauseGap? <==> authoritative && gap.jump > 0)
  }

  predicate RightKinds(s: State) {
    && (s.gap.Some? ==> RightKind(s.authoritative, s.gap.value))
    && (s.previous.Some? && s.previous.value.gap.Some? ==> RightKind(s.authoritative, s.previous.value.gap.value))
  }

  lemma PushRightKinds(s: State, span: Span)
    requires RightKinds(s)
    ensures RightKinds(Push(s, span)) && Push(s, span).authoritative == s.authoritative
  {
  }

  lemma RecordRightKinds(s: State, step: int, trimLast: bool)
    requires RightKinds(s)
    ensures RightKinds(RecordStep(s, step, trimLast)) && RecordStep(s, step, trimLast).authoritative == s.authoritative
  {
  }

  /** In every reachable state only a jump forward under authoritative records is held
      for a pause. */
  lemma {:induction false} ReachableKinds(authoritative: bool, events: seq<Event>)
    ensures var s := Run(authoritative, events).state;
            RightKinds(s) && s.authoritative == authoritative
  {
    if |events| > 0 {
      var n := |events| - 1;
      ReachableKinds(authoritative, events[..n]);
      var s := Run(authoritative, events[..n]).state;
      match events[n]
      case Pushed(span) => PushRightKinds(s, span);
      case Stepped(size) => RecordRightKinds(s, size, false);
      case SteppedUnresolved(size) => RecordRightKinds(s, size, true);
    }
  }

  // ---------------------------------------------------------------- what a record is taken for

  /** The data since the jump is short. */
  predicate SoonAfter(s: State, gap: Gap) {
    s.last.Some? ==> s.last.value.end <= gap.at + STEP_GAP_NS
  }

  /** The jump is about as large as the step, or longer in forward time and in its direction. */
  predicate Matches(jump: int, step: int) {
    && step - STEP_GAP_NS <= jump
    && (jump <= step + STEP_GAP_NS || (jump > 0 <==> step > 0))
  }

  /** The jump before the open segment is the one that a record of `step` is about. */
  predicate IsAbout(s: State, step: int) {
    s.gap.Some? && SoonAfter(s, s.gap.value) && Matches(s.gap.value.jump, step)
  }

  /** A record goes on with the open segment if and only if it is about the jump before it;
      any other record closes the segment, if there is anything in it. */
  lemma RecordClosesUnlessAbout(s: State, step: int, trimLast: bool)
    ensures var t := RecordStep(s, step, trimLast);
            && t.gap == None
            && (IsAbout(s, step) ==>
                && t.nextSegment == s.nextSegment && t.segment == s.segment && t.last == s.last
                && t.steps == s.steps + (if s.gap.value.kind.StepGap? then 0 else 1))
            && (!IsAbout(s, step) ==>
                && t.nextSegment == s.nextSegment + (if s.last.Some? then 1 else 0)
                && t.last == None && t.earlier == None && t.steps == s.steps + 1)
  {
  }

  /** A record about a jump counts the pause beside its step exactly when records are
      authoritative: with the segment before the jump, which is moved by the step, or
      without one as it is. */
  lemma PauseBesideStep(s: State, step: int, trimLast: bool)
    requires IsAbout(s, step)
    requires s.authoritative && s.gap.value.jump - step > STEP_GAP_NS ==>
             match s.previous
             case None => s.total + s.gap.value.jump - step <= U64_MAX
             case Some(p) => p.duration <= s.total && Extent(p.earlier, p.last).Moved(step).Fits()
    ensures var t := RecordStep(s, step, trimLast);
            var pause := s.gap.value.jump - step;
            if !s.authoritative || pause <= STEP_GAP_NS then
              t.total == s.total && t.merged == s.merged && t.earlier == s.earlier && t.previous == s.previous
            else if s.previous == None then
              t.total == s.total + pause && t.merged == s.merged && t.earlier == s.earlier
            else
              var p := s.previous.value;
              && t.total == s.total - p.duration && t.previous == None
              && t.merged == s.merged + [Join(p.segment, s.segment, step)]
              && t.earlier == Some(Extent(s.earlier, Extent(p.earlier, p.last).Moved(step)))
  {
    if s.authoritative && s.gap.value.jump - step > STEP_GAP_NS && s.previous.Some? {
      ShiftInRange(Extent(s.previous.value.earlier, s.previous.value.last), step);
    }
  }

  // ---------------------------------------------------------------- one jump, one record

  /** Spans from one moment on to another, without a jump, following a state's last span. */
  predicate GoesOn(s: State, spans: seq<Span>) {
    && Calm(spans)
    && (s.last.Some? && |spans| > 0 ==>
        s.last.value.end <= spans[0].start <= s.last.value.end + STEP_GAP_NS)
  }

  /** What a calm stretch adds to the open segment. */
  function WithStretch(s: State, spans: seq<Span>): Option<Span> {
    var open := if s.last.Some? then Some(OpenExtent(s)) else None;
    if |spans| == 0 then open else Some(Extent(open, Span(spans[0].start, spans[|spans| - 1].end)))
  }

  /** A state with no pause pending and nothing left from a closed segment. */
  predicate Ready(s: State) {
    !PausePending(s) && (s.last == None ==> s.earlier == None)
  }

  lemma PushGoesOn(s: State, next: Span)
    requires Ready(s) && next.start <= next.end
    requires s.last.Some? ==> s.last.value.end <= next.start <= s.last.value.end + STEP_GAP_NS
    ensures var t := Push(s, next);
            && Ready(t) && t.total == s.total && t.steps == s.steps && t.last == Some(next)
            && OpenExtent(t) == Extent(if s.last.Some? then Some(OpenExtent(s)) else None, next)
  {
  }

  lemma {:induction false} StretchGoesOn(s: State, spans: seq<Span>)
    requires Ready(s) && GoesOn(s, spans)
    requires s.last.Some? ==> OpenExtent(s).end <= s.last.value.end
    ensures var t := PushAll(s, spans);
            && Ready(t) && t.total == s.total && t.steps == s.steps
            && (if |spans| == 0 then t == s else t.last == Some(spans[|spans| - 1]))
            && (t.last.Some? ==> Some(OpenExtent(t)) == WithStretch(s, spans))
            && (t.last == None ==> WithStretch(s, spans) == None)
  {
    if |spans| > 0 {
      var n := |spans| - 1;
      if n > 0 {
        assert Follows(spans, n);
        CalmFront(spans, n);
        CalmCover(spans[..n]);
      }
      StretchGoesOn(s, spans[..n]);
      PushGoesOn(PushAll(s, spans[..n]), spans[n]);
    }
  }

  /** Two calm stretches with one jump between them. */
  predicate OneJump(a: seq<Span>, b: seq<Span>) {
    |a| > 0 && |b| > 0 && Calm(a) && Calm(b) && Apart(a[|a| - 1], b[0])
  }

  /** A recording with one jump as it is when all its spans have been pushed. */
  lemma JumpPushed(authoritative: bool, a: seq<Span>, b: seq<Span>)
    requires OneJump(a, b)
    ensures var back := Breaks(authoritative, a[|a| - 1], b[0]);
            && NoneComesBack(a + b)
            && LatestJump(a + b) == |a| && JumpCount(a + b) == 1
            && PieceStart(authoritative, a + b) == (if back then |a| else 0)
  {
    StretchTracked(authoritative, [], a);
    assert [] + a == a && [] + [a[0]] == [a[0]];
    NothingBefore(a[0]);
    PiecesMore(authoritative, a, b[0]);
    StretchTracked(authoritative, a, b);
  }

  /** Where the accumulator stands then: the jump still open to a record, unless it
      was a pause that long data has settled. */
  predicate StandsAfter(s: State, authoritative: bool, a: seq<Span>, b: seq<Span>)
    requires |a| > 0 && |b| > 0
  {
    var first, end := a[0].start, b[|b| - 1].end;
    var jump := b[0].start - a[|a| - 1].end;
    && s.authoritative == authoritative && s.last == Some(b[|b| - 1])
    && s.steps == (if authoritative then 0 else 1)
    && if authoritative && jump > 0 && Elapsed(b) > STEP_GAP_NS then
         s.gap == None && s.previous == None && s.total == 0 && OpenExtent(s) == Span(first, end)
       else
         && s.gap.Some? && s.gap.value.at == b[0].start && s.gap.value.jump == jump
         && (s.gap.value.kind.StepGap? <==> !authoritative) && (PausePending(s) <==> authoritative && jump > 0)
         && OpenExtent(s) == Span(b[0].start, end) && s.total == Elapsed(a)
         && s.previous.Some?
         && var p := s.previous.value;
         && Extent(p.earlier, p.last) == Span(first, a[|a| - 1].end) && p.duration == Elapsed(a)
  }

  lemma CalmAlone(authoritative: bool, a: seq<Span>)
    requires |a| > 0 && Calm(a)
    ensures NoneComesBack(a) && JumpCount(a) == 0
    ensures PieceStart(authoritative, a) == LatestJump(a) == 0 && Measured(authoritative, a) == Elapsed(a)
  {
    NothingBefore(a[0]);
    StretchTracked(authoritative, [], a);
    assert [] + a == a && [] + [a[0]] == [a[0]];
    CalmCover(a);
    assert a[0..] == a && a[..0] == [];
    NothingMeasured();
  }

  /** Two calm stretches, put together. */
  lemma Together(a: seq<Span>, b: seq<Span>)
    requires OneJump(a, b)
    ensures var spans := a + b;
            && spans[..|a|] == a && spans[|a|..] == b && spans[0..] == spans && spans[0..|a|] == a && spans[..0] == []
            && spans[|a| - 1] == a[|a| - 1] && spans[|a|] == b[0] && spans[|spans| - 1] == b[|b| - 1] && a[0..] == a
    ensures Cover(a) == Span(a[0].start, a[|a| - 1].end) && Cover(b) == Span(b[0].start, b[|b| - 1].end)
    ensures Cover(a + b) == Cover(a).Merge(Cover(b))
    ensures Cover(a).Len() == Elapsed(a) && Cover(b).Len() == Elapsed(b)
    ensures Cover(a).start <= Cover(a).end && Cover(b).start <= Cover(b).end
  {
    hide Cover;
    CalmCover(a);
    CalmCover(b);
    CalmOrdered(a);
    CalmOrdered(b);
    CoverConcat(a, b);
  }

  lemma {:induction false} CalmOrdered(spans: seq<Span>)
    requires |spans| > 0 && Calm(spans)
    ensures spans[0].start <= spans[|spans| - 1].end
  {
    if |spans| > 1 {
      assert Follows(spans, |spans| - 1);
      CalmFront(spans, |spans| - 1);
      CalmOrdered(spans[..|spans| - 1]);
    }
  }

  lemma OneJumpMeasured(authoritative: bool, a: seq<Span>, b: seq<Span>)
    requires OneJump(a, b)
    ensures Measured(authoritative, a + b)
         == if Breaks(authoritative, a[|a| - 1], b[0]) then Elapsed(a) + Elapsed(b)
            else Span(a[0].start, b[|b| - 1].end).Len()
  {
    hide Cover, PieceStart, Calm, Elapsed;
    JumpPushed(authoritative, a, b);
    CalmAlone(authoritative, a);
    Together(a, b);
    NothingMeasured();
  }

  lemma OneJumpStands(authoritative: bool, a: seq<Span>, b: seq<Span>)
    requires OneJump(a, b) && Elapsed(a) + Elapsed(b) <= U64_MAX
    requires Span(a[0].start, b[|b| - 1].end).Len() <= U64_MAX
    ensures StandsAfter(PushAll(Fresh(authoritative), a + b), authoritative, a, b)
  {
    hide Measured, NoneComesBack, JumpCount, PieceStart, LatestJump, Tracks, StandsAfter;
    var spans := a + b;
    JumpPushed(authoritative, a, b);
    CalmAlone(authoritative, a);
    OneJumpMeasured(authoritative, a, b);
    RunTracks(authoritative, spans);
    TracksOneJump(PushAll(Fresh(authoritative), spans), a, b);
  }

  lemma TracksOneJump(s: State, a: seq<Span>, b: seq<Span>)
    requires OneJump(a, b) && Tracks(s, a + b)
    requires LatestJump(a + b) == |a| && JumpCount(a + b) == 1
    requires PieceStart(s.authoritative, a + b) == if Breaks(s.authoritative, a[|a| - 1], b[0]) then |a| else 0
    requires Measured(s.authoritative, a) == Elapsed(a) && PieceStart(s.authoritative, a) == 0
    ensures StandsAfter(s, s.authoritative, a, b)
  {
    hide Cover, JumpCount, LatestJump, PieceStart, Measured, Calm, Elapsed;
    Together(a, b);
    NothingMeasured();
  }

  /** The record comes soon after the jump between the stretches and matches it. */
  predicate AboutJump(a: seq<Span>, b: seq<Span>, step: int)
    requires |a| > 0 && |b| > 0
  {
    && b[|b| - 1].end <= b[0].start + STEP_GAP_NS
    && Matches(b[0].start - a[|a| - 1].end, step)
  }

  /** There is a pause beside the step: the jump is longer. */
  predicate PauseBeside(authoritative: bool, a: seq<Span>, b: seq<Span>, step: int)
    requires |a| > 0 && |b| > 0
  {
    authoritative && b[0].start - a[|a| - 1].end > step + STEP_GAP_NS
  }

  /** `b` and then `c`, which goes on from it. */
  function LastEnd(b: seq<Span>, c: seq<Span>): int
    requires |b| > 0
  {
    if |c| > 0 then c[|c| - 1].end else b[|b| - 1].end
  }

  function Recorded(authoritative: bool, a: seq<Span>, b: seq<Span>, step: int, c: seq<Span>): Report {
    Finish(PushAll(RecordStep(PushAll(Fresh(authoritative), a + b), step, false), c))
  }

  /** A record about the jump confirms it as the one step, and the recording goes on. A pause
      beside the step counts when records are authoritative: the recording then lasts from its
      first log time, moved by the step, to its last. */
  lemma RecordAboutJump(authoritative: bool, a: seq<Span>, b: seq<Span>, step: int, c: seq<Span>)
    requires OneJump(a, b) && AboutJump(a, b, step) && Calm(c)
    requires |c| > 0 ==> b[|b| - 1].end <= c[0].start <= b[|b| - 1].end + STEP_GAP_NS
    requires forall x <- a + b :: x.Fits()
    requires Elapsed(a) + Span(b[0].start, LastEnd(b, c)).Len() <= U64_MAX
    requires PauseBeside(authoritative, a, b, step) ==>
               Span(a[0].start, a[|a| - 1].end).Moved(step).Fits() && LastEnd(b, c) <= U64_MAX
    ensures Recorded(authoritative, a, b, step, c)
         == Report(if PauseBeside(authoritative, a, b, step) then Span(a[0].start + step, LastEnd(b, c)).Len()
                   else Elapsed(a) + Span(b[0].start, LastEnd(b, c)).Len(),
                   1)
  {
    hide Calm, PushAll, Push, RecordStep, StandsAfter;
    CalmOrdered(a);
    CalmOrdered(b);
    if |c| > 0 {
      CalmOrdered(c);
    }
    var s := PushAll(Fresh(authoritative), a + b);
    ConcatFits(a, b);
    OneJumpStands(authoritative, a, b);
    Confirming(s, authoritative, a, b, step);
    ConfirmedThen(RecordStep(s, step, false), b, c);
  }

  lemma Confirming(s: State, authoritative: bool, a: seq<Span>, b: seq<Span>, step: int)
    requires OneJump(a, b) && AboutJump(a, b, step) && StandsAfter(s, authoritative, a, b)
    requires a[0].start <= a[|a| - 1].end && b[0].start <= b[|b| - 1].end
    requires PauseBeside(authoritative, a, b, step) ==> Span(a[0].start, a[|a| - 1].end).Moved(step).Fits()
    ensures var t := RecordStep(s, step, false);
            && t.gap == None && t.last == Some(b[|b| - 1]) && t.steps == 1
            && (if PauseBeside(authoritative, a, b, step)
                then t.total == 0 && OpenExtent(t) == Span(a[0].start + step, b[|b| - 1].end)
                else t.total == Elapsed(a) && OpenExtent(t) == Span(b[0].start, b[|b| - 1].end))
  {
    hide Calm;
    PauseBesideStep(s, step, false);
  }

  lemma ConfirmedThen(t: State, b: seq<Span>, c: seq<Span>)
    requires |b| > 0 && t.gap == None && t.last == Some(b[|b| - 1]) && OpenExtent(t).end == b[|b| - 1].end
    requires OpenExtent(t).start <= OpenExtent(t).end && Calm(c)
    requires |c| > 0 ==> b[|b| - 1].end <= c[0].start <= b[|b| - 1].end + STEP_GAP_NS && c[0].start <= c[|c| - 1].end
    requires t.total + Span(OpenExtent(t).start, LastEnd(b, c)).Len() <= U64_MAX
    ensures Finish(PushAll(t, c)) == Report(t.total + Span(OpenExtent(t).start, LastEnd(b, c)).Len(), t.steps)
  {
    hide Calm;
    assert GoesOn(t, c);
    StretchGoesOn(t, c);
    assert SettlePause(PushAll(t, c)) == PushAll(t, c);
  }

  lemma ConcatFits(a: seq<Span>, b: seq<Span>)
    requires forall x <- a + b :: x.Fits()
    ensures forall i :: 0 <= i < |a| ==> a[i].Fits()
    ensures forall i :: 0 <= i < |b| ==> b[i].Fits()
  {
    assert forall i :: 0 <= i < |a| ==> (a + b)[i] == a[i];
    assert forall i :: 0 <= i < |b| ==> (a + b)[|a| + i] == b[i];
  }

  /** Any other record closes the stretch: it is a step of its own, and where the jump
      was a pause the pause counts. */
  lemma RecordNotAboutJump(authoritative: bool, a: seq<Span>, b: seq<Span>, step: int, c: seq<Span>)
    requires OneJump(a, b) && !AboutJump(a, b, step) && Calm(c)
    requires forall x <- a + b :: x.Fits()
    requires Elapsed(a) + Elapsed(b) <= U64_MAX
    requires var pause := if authoritative then Max(b[0].start - a[|a| - 1].end, 0) else 0;
             Elapsed(a) + pause + Elapsed(b) + Elapsed(c) <= U64_MAX
    ensures var pause := if authoritative then Max(b[0].start - a[|a| - 1].end, 0) else 0;
            Recorded(authoritative, a, b, step, c)
            == Report(Elapsed(a) + pause + Elapsed(b) + Elapsed(c), if authoritative then 1 else 2)
  {
    hide Calm, PushAll, Push;
    CalmOrdered(a);
    CalmOrdered(b);
    var s := PushAll(Fresh(authoritative), a + b);
    ConcatFits(a, b);
    OneJumpStands(authoritative, a, b);
    var t := RecordStep(s, step, false);
    Closing(s, authoritative, a, b, step);
    ClosedThen(t, c);
  }

  /** After a record that closes the stretch, another stretch is measured by itself. */
  lemma ClosedThen(t: State, c: seq<Span>)
    requires t.last == None && t.earlier == None && t.gap == None && Calm(c) && t.total + Elapsed(c) <= U64_MAX
    ensures Finish(PushAll(t, c)) == Report(t.total + Elapsed(c), t.steps)
  {
    StretchGoesOn(t, c);
    var u := PushAll(t, c);
    assert SettlePause(u) == u;
  }

  lemma Closing(s: State, authoritative: bool, a: seq<Span>, b: seq<Span>, step: int)
    requires OneJump(a, b) && !AboutJump(a, b, step) && StandsAfter(s, authoritative, a, b)
    requires a[0].start <= a[|a| - 1].end && b[0].start <= b[|b| - 1].end
    requires var pause := if authoritative then Max(b[0].start - a[|a| - 1].end, 0) else 0;
             Elapsed(a) + pause + Elapsed(b) <= U64_MAX
    ensures var pause := if authoritative then Max(b[0].start - a[|a| - 1].end, 0) else 0;
            var t := RecordStep(s, step, false);
            && t.last == None && t.earlier == None && t.gap == None
            && t.total == Elapsed(a) + pause + Elapsed(b) && t.steps == (if authoritative then 1 else 2)
  {
    hide Calm;
    RecordClosesUnlessAbout(s, step, false);
  }

  // ---------------------------------------------------------------- a record after a span that may hold a leak

  /** What a record not about a jump does, by parts. */
  lemma RecordCloses(s: State, step: int, trimLast: bool)
    requires !IsAbout(s, step)
    ensures var closed := Close(SettlePause(s).(gap := None), if trimLast then Some(Abs(step)) else None);
            RecordStep(s, step, trimLast) == closed.(steps := closed.steps + 1)
  {
    assert Described(s, step) == None;
  }

  lemma SettledOnce(s: State)
    ensures SettlePause(SettleIfLong(s)) == SettlePause(s)
  {
  }

  /** The span is moved back by the size of the step if it is that long, and then what is
      measured is what would be had the span ended that much earlier: a span that ends with a
      leak as long as the step is measured without it. */
  lemma TrimUndoesLeak(s: State, from: int, end: int, step: int)
    requires from <= end
    requires var leaking, clean := Span(from, end + Abs(step)), Span(from, end);
             !IsAbout(Push(s, leaking), step) && !IsAbout(Push(s, clean), step)
    ensures RecordStep(Push(s, Span(from, end + Abs(step))), step, true)
         == RecordStep(Push(s, Span(from, end)), step, false)
  {
    hide RecordStep, SettleIfLong, AfterJump, IsAbout;
    var leaking, clean := Span(from, end + Abs(step)), Span(from, end);
    SameJump(s, leaking, clean);
    var a := AfterJump(s, clean);
    RecordCloses(Push(s, leaking), step, true);
    RecordCloses(Push(s, clean), step, false);
    SettledOnce(Extend(a, leaking));
    SettledOnce(Extend(a, clean));
    assert SettlePause(Extend(a, leaking)) == SettlePause(Extend(a, clean)).(last := Some(leaking));
  }

  lemma SameJump(s: State, a: Span, b: Span)
    requires a.start == b.start
    ensures AfterJump(s, a) == AfterJump(s, b)
  {
  }

  /** A shorter span is not trimmed. */
  lemma ShortNotTrimmed(s: State, step: int)
    requires s.last.Some? ==> s.last.value.end - s.last.value.start < Abs(step)
    ensures RecordStep(s, step, true) == RecordStep(s, step, false)
  {
  }
}
