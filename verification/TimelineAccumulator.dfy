/** The timeline accumulator itself, updated in place. */
module Accumulator {
  import opened Spans
  import opened Timeline
  import opened Conservation

  class TimelineAccumulator {
    const authoritative: bool
    var totalNs: nat
    var clockSteps: nat
    var segment: nat
    var nextSegment: nat
    var earlier: Option<Span>
    var last: Option<Span>
    var gap: Option<Gap>
    var previous: Option<Closed>
    var merged: seq<Join>
    var abandoned: seq<nat>

    // What the calls so far have told the accumulator, and whether every one
    // of them stayed within the 64-bit range.
    ghost var history: seq<Item>
    ghost var pauses: nat
    ghost var inRange: bool

    ghost function Value(): State
      reads this
    {
      State(authoritative, totalNs, clockSteps, segment, nextSegment, earlier, last, gap, previous, merged, abandoned)
    }

    ghost predicate Valid()
      reads this
    {
      Sound(Value(), history, pauses, inRange)
    }

    constructor (authoritative: bool)
      ensures Valid() && inRange
      ensures Value() == Fresh(authoritative)
      ensures history == [] && pauses == 0
    {
      this.authoritative := authoritative;
      totalNs, clockSteps, segment, nextSegment := 0, 0, 0, 0;
      earlier, last, gap, previous := None, None, None, None;
      merged, abandoned := [], [];
      history, pauses, inRange := [], 0, true;
      new;
      hide Sound;
      SoundFresh(authoritative);
    }

    method Push(span: Span)
      requires Valid()
      modifies this
      ensures Valid()
      ensures Value() == Timeline.Push(old(Value()), span)
      ensures history == old(history) + [Item(segment, span)]
      ensures pauses == old(pauses)
      ensures inRange == old(inRange && EventFits(Value(), Pushed(span)))
    {
      hide Sound;
      ghost var before := Value();
      SoundPush(before, history, pauses, inRange, span);
      UpdateForSpan(span);
      inRange := inRange && CloseFits(Timeline.SettlePause(before));
      history := history + [Item(segment, span)];
    }

    method UpdateForSpan(span: Span)
      modifies this
      ensures Value() == Timeline.Push(old(Value()), span)
      ensures history == old(history) && pauses == old(pauses) && inRange == old(inRange)
    {
      if last.Some? {
        var jump := span.start - last.value.end;
        if Abs(jump) > STEP_GAP_NS {
          var reopened := ReopenBeforeExcursion(span);
          if !reopened {
            OpenAfterJump(span, jump);
          }
        }
      }
      if last.Some? {
        earlier := Some(Extent(earlier, last.value));
      }
      last := Some(span);
      var extent := Extent(earlier, span);
      if extent.Len() > STEP_GAP_NS {
        SettlePause();
      }
    }

    method OpenAfterJump(span: Span, jump: int)
      requires last.Some? && jump == span.start - last.value.end
      modifies this
      ensures Value() == Timeline.OpenAfterJump(old(Value()), span)
      ensures history == old(history) && pauses == old(pauses) && inRange == old(inRange)
    {
      SettlePause();
      Close(None);
      var kind := if !authoritative then StepGap else if jump > 0 then PauseGap else SplitGap;
      if kind == StepGap {
        clockSteps := clockSteps + 1;
      }
      gap := Some(Gap(span.start, jump, kind));
    }

    method ClockStep(step: int)
      requires Valid()
      modifies this
      ensures Valid()
      ensures Value() == Timeline.RecordStep(old(Value()), step, false)
      ensures history == old(history)
      ensures pauses == old(pauses) + PauseCounted(old(Value()), step)
      ensures inRange == old(inRange && EventFits(Value(), Stepped(step)))
    {
      RecordStep(step, false);
    }

    method ClockStepAfterUnresolved(step: int)
      requires Valid()
      modifies this
      ensures Valid()
      ensures Value() == Timeline.RecordStep(old(Value()), step, true)
      ensures history == HistoryAfterStep(old(Value()), old(history), step, true)
      ensures pauses == old(pauses) + PauseCounted(old(Value()), step)
      ensures inRange == old(inRange && EventFits(Value(), SteppedUnresolved(step)))
    {
      RecordStep(step, true);
    }

    method RecordStep(step: int, trimLast: bool)
      requires Valid()
      modifies this
      ensures Valid()
      ensures Value() == Timeline.RecordStep(old(Value()), step, trimLast)
      ensures history == HistoryAfterStep(old(Value()), old(history), step, trimLast)
      ensures pauses == old(pauses) + PauseCounted(old(Value()), step)
      ensures inRange == old(inRange && StepFits(Value(), step))
    {
      hide Sound;
      ghost var before := Value();
      SoundStep(before, history, pauses, inRange, step, trimLast);
      history := HistoryAfterStep(before, history, step, trimLast);
      pauses := pauses + PauseCounted(before, step);
      inRange := inRange && StepFits(before, step);
      UpdateForStep(step, trimLast);
    }

    method UpdateForStep(step: int, trimLast: bool)
      modifies this
      ensures Value() == Timeline.RecordStep(old(Value()), step, trimLast)
      ensures history == old(history) && pauses == old(pauses) && inRange == old(inRange)
    {
      if gap.Some? {
        var paused := DescribedBy(gap.value, step, last);
        if paused.Some? {
          var kind := gap.value.kind;
          gap := None;
          if kind != StepGap {
            clockSteps := clockSteps + 1;
          }
          if authoritative && paused.value > 0 {
            JoinAcrossStep(step, paused.value);
          }
          return;
        }
        SettlePause();
      }
      gap := None;
      Close(if trimLast then Some(Abs(step)) else None);
      clockSteps := clockSteps + 1;
    }

    /** Where the data so far ends: with the span pushed last, unless nothing has been
        pushed since a segment was closed. */
    function LastEnd(): (end: Option<int>)
      requires Valid()
      reads this
      ensures inRange && end.Some? ==> |history| > 0 && history[|history| - 1].span.end == end.value
      ensures inRange && end == None ==> Hull(history, merged, abandoned, segment) == None
    {
      match last
      case None => None
      case Some(l) => Some(l.end)
    }

    /** Settles any pause, closes the open segment and reports. While every
        call stayed in range, the report is what the history says. */
    method Finish() returns (report: Report)
      requires Valid()
      modifies this
      ensures Value() == Finished(old(Value())) && JoinForest(Value())
      ensures report == Timeline.Finish(old(Value()))
      ensures history == old(history) && pauses == old(pauses)
      ensures old(inRange && CloseFits(Timeline.SettlePause(Value()))) ==>
                && Conserved(old(Value()), history, pauses)
                && Core(Value(), history, pauses)
    {
      SettlePauseForest(Value());
      CloseForest(Timeline.SettlePause(Value()), None);
      if inRange && CloseFits(Timeline.SettlePause(Value())) {
        FinishConserves(Value(), history, pauses);
      }
      SettlePause();
      Close(None);
      report := Report(totalNs, clockSteps);
    }

    method ReopenBeforeExcursion(next: Span) returns (reopened: bool)
      modifies this
      ensures reopened == ReturnsFromExcursion(old(Value()), next)
      ensures Value() == if reopened then Reopened(old(Value())) else old(Value())
      ensures history == old(history) && pauses == old(pauses) && inRange == old(inRange)
    {
      hide SaturatingSub, Extent, Abs;
      if gap == None || previous == None || last == None {
        return false;
      }
      var p := previous.value;
      var excursion := Extent(earlier, last.value);
      var resumes := next.start - p.last.end;
      if excursion.Len() > STEP_GAP_NS || Abs(resumes) > STEP_GAP_NS {
        return false;
      }
      totalNs := SaturatingSub(totalNs, p.duration);
      if gap.value.kind == StepGap {
        clockSteps := SaturatingSub(clockSteps, 1);
      }
      abandoned := abandoned + [segment];
      segment := p.segment;
      earlier := p.earlier;
      last := Some(p.last);
      gap := p.gap;
      previous := None;
      return true;
    }

    method JoinAcrossStep(step: int, paused: nat)
      modifies this
      ensures Value() == Timeline.JoinAcrossStep(old(Value()), step, paused)
      ensures history == old(history) && pauses == old(pauses) && inRange == old(inRange)
    {
      if previous == None {
        totalNs := SaturatingAdd(totalNs, paused);
        return;
      }
      var p := previous.value;
      previous := None;
      totalNs := SaturatingSub(totalNs, p.duration);
      merged := merged + [Join(p.segment, segment, step)];
      var before := Extent(p.earlier, p.last).Shifted(step);
      earlier := Some(Extent(earlier, before));
      gap := None;
    }

    method SettlePause()
      modifies this
      ensures Value() == Timeline.SettlePause(old(Value()))
      ensures history == old(history) && pauses == old(pauses) && inRange == old(inRange)
    {
      if gap == None || gap.value.kind != PauseGap || previous == None {
        return;
      }
      var p := previous.value;
      previous := None;
      totalNs := SaturatingSub(totalNs, p.duration);
      merged := merged + [Join(segment, p.segment, 0)];
      segment := p.segment;
      var before := Extent(p.earlier, p.last);
      earlier := Some(Extent(earlier, before));
      gap := p.gap;
    }

    method Close(trim: Option<nat>)
      modifies this
      ensures Value() == Timeline.Close(old(Value()), trim)
      ensures history == old(history) && pauses == old(pauses) && inRange == old(inRange)
    {
      var before := earlier;
      earlier := None;
      if last == None {
        return;
      }
      var end := last.value;
      last := None;
      if trim.Some? && end.Len() >= trim.value {
        end := end.(end := end.end - trim.value);
      }
      var duration := Extent(before, end).Len();
      totalNs := SaturatingAdd(totalNs, duration);
      previous := Some(Closed(segment, before, end, duration, gap));
      nextSegment := nextSegment + 1;
      segment := nextSegment;
    }
  }
}
