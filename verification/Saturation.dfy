/** No subtraction from the timeline's totals ever saturates. */
module Saturation {
  import opened Spans
  import opened Timeline
  import opened Conservation

  // ---------------------------------------------------------------- where something is taken back

  /** Joining a pending pause takes back no more than was counted. */
  predicate SettlesExactly(s: State) {
    PausePending(s) && s.previous.Some? ==> s.previous.value.duration <= s.total
  }

  /** Re-opening takes back no more time and no more steps than were counted. */
  predicate ReopensExactly(s: State) {
    s.gap.Some? && s.previous.Some? ==>
      s.previous.value.duration <= s.total && (s.gap.value.kind.StepGap? ==> s.steps >= 1)
  }

  /** Every subtraction along a push: before and after the segment has been extended. */
  predicate PushesExactly(s: State, span: Span) {
    && (Jumps(s, span) ==> if ReturnsFromExcursion(s, span) then ReopensExactly(s) else SettlesExactly(s))
    && SettlesExactly(Extend(AfterJump(s, span), span))
  }

  /** Every subtraction along a record. */
  predicate RecordsExactly(s: State, step: int) {
    match Described(s, step)
    case None => SettlesExactly(s)
    case Some(paused) =>
      s.authoritative && paused > 0 && s.previous.Some? ==> s.previous.value.duration <= s.total
  }

  predicate SubtractsExactly(s: State, event: Event) {
    match event
    case Pushed(span) => PushesExactly(s, span)
    case Stepped(size) => RecordsExactly(s, size)
    case SteppedUnresolved(size) => RecordsExactly(s, size)
  }

  // ---------------------------------------------------------------- the invariant

  function GapSteps(gap: Option<Gap>): nat {
    if gap.Some? && gap.value.kind.StepGap? then 1 else 0
  }

  function PreviousSteps(previous: Option<Closed>): nat {
    if previous.Some? then GapSteps(previous.value.gap) else 0
  }

  /** The jumps that can still be taken back are among the steps counted. */
  predicate StepsCover(s: State) {
    s.steps >= GapSteps(s.gap) + PreviousSteps(s.previous)
  }

  lemma PushCovers(s: State, span: Span)
    requires StepsCover(s)
    ensures StepsCover(Push(s, span))
  {
  }

  lemma RecordCovers(s: State, step: int, trimLast: bool)
    requires StepsCover(s)
    ensures StepsCover(RecordStep(s, step, trimLast))
  {
  }

  /** In every reachable state, in range or not. */
  lemma {:induction false} ReachableCovers(authoritative: bool, events: seq<Event>)
    ensures StepsCover(Run(authoritative, events).state)
  {
    hide StepsCover, Push, RecordStep;
    if |events| == 0 {
      FreshCovers(authoritative);
    } else {
      var n := |events| - 1;
      ReachableCovers(authoritative, events[..n]);
      var s := Run(authoritative, events[..n]).state;
      match events[n]
      case Pushed(span) => PushCovers(s, span);
      case Stepped(size) => RecordCovers(s, size, false);
      case SteppedUnresolved(size) => RecordCovers(s, size, true);
    }
  }

  lemma FreshCovers(authoritative: bool)
    ensures StepsCover(Fresh(authoritative))
  {
  }

  // ---------------------------------------------------------------- every run

  /** After a jump the segment before is still covered by the total. */
  lemma AfterJumpExact(s: State, history: seq<Item>, pauses: nat, span: Span)
    requires Inv(s, history, pauses) && CloseFits(SettlePause(s))
    ensures var a := AfterJump(s, span);
            a.previous.Some? ==> a.previous.value.duration <= a.total
  {
    hide Core;
    if Jumps(s, span) {
      if ReturnsFromExcursion(s, span) {
      } else {
        OpenAfterJumpKeeps(s, history, pauses, span);
        var a := OpenAfterJump(s, span);
        if a.previous.Some? {
          PreviousInTotal(a, history, pauses);
        }
      }
    } else if s.previous.Some? {
      PreviousInTotal(s, history, pauses);
    }
  }

  lemma ExactIn(s: State, history: seq<Item>, pauses: nat, event: Event)
    requires Inv(s, history, pauses) && StepsCover(s) && EventFits(s, event)
    ensures SubtractsExactly(s, event)
  {
    hide Core;
    if s.previous.Some? {
      PreviousInTotal(s, history, pauses);
    }
    if event.Pushed? {
      AfterJumpExact(s, history, pauses, event.span);
    }
  }

  /** In every reachable state nothing that the next call takes back, from the total or
      from the steps, is more than what was counted. */
  lemma NeverSaturates(authoritative: bool, events: seq<Event>, event: Event)
    requires RunFits(authoritative, events + [event])
    ensures SubtractsExactly(Run(authoritative, events).state, event)
  {
    assert (events + [event])[..|events|] == events;
    RunKeeps(authoritative, events);
    ReachableCovers(authoritative, events);
    var t := Run(authoritative, events);
    ExactIn(t.state, t.history, t.pauses, event);
  }

  /** Nor is anything that finishing takes back. */
  lemma FinishNeverSaturates(authoritative: bool, events: seq<Event>)
    requires RunFits(authoritative, events)
    ensures SettlesExactly(Run(authoritative, events).state)
  {
    RunKeeps(authoritative, events);
    var t := Run(authoritative, events);
    if t.state.previous.Some? {
      PreviousInTotal(t.state, t.history, t.pauses);
    }
  }
}
