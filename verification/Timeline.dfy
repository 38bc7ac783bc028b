/** The timeline state machine as functions on values: what each operation of
    the accumulator computes. */
module Timeline {
  import opened Spans

  datatype GapKind =
    | StepGap   // counted as a clock step
    | SplitGap  // begins a new segment, but is no clock step
    | PauseGap  // taken for a pause until the data returns from it

  /** A detected jump: log time of the first span after it, its signed size, its kind. */
  datatype Gap = Gap(at: int, jump: int, kind: GapKind)

  /** The segment closed most recently. */
  datatype Closed = Closed(segment: nat, earlier: Option<Span>, last: Span, duration: nat, gap: Option<Gap>)

  /** `from`'s spans move by `offset` into `into`'s clock. */
  datatype Join = Join(from: nat, into: nat, offset: int)

  datatype State = State(
    authoritative: bool,
    total: nat,
    steps: nat,
    segment: nat,
    nextSegment: nat,
    earlier: Option<Span>,
    last: Option<Span>,
    gap: Option<Gap>,
    previous: Option<Closed>,
    merged: seq<Join>,
    abandoned: seq<nat>)

  /** What a finished timeline reports. */
  datatype Report = Report(duration: nat, steps: nat)

  function Fresh(authoritative: bool): State {
    State(authoritative, 0, 0, 0, 0, None, None, None, None, [], [])
  }

  /** Whether a record of size `step` describes `gap`, given the last span
      pushed; if so, the length of the pause beside the step. */
  function DescribedBy(gap: Gap, step: int, last: Option<Span>): Option<nat> {
    var since := match last case None => 0 case Some(l) => Max(l.end - gap.at, 0);
    var paused := gap.jump - step;
    if since > STEP_GAP_NS then None
    else if Abs(paused) <= STEP_GAP_NS then Some(0)
    else if paused > 0 && (gap.jump > 0) == (step > 0) then Some(Clamp(paused))
    else None
  }

  /** Undoes the split at a pending pause: the open segment becomes part of the previous one. */
  function SettlePause(s: State): State {
    if s.gap.Some? && s.gap.value.kind.PauseGap? && s.previous.Some? then
      var p := s.previous.value;
      s.(total := SaturatingSub(s.total, p.duration),
         merged := s.merged + [Join(s.segment, p.segment, 0)],
         segment := p.segment,
         earlier := Some(Extent(s.earlier, Extent(p.earlier, p.last))),
         gap := p.gap,
         previous := None)
    else s
  }

  /** The last span with its end moved back by `trim`, when it is that long. */
  function Trimmed(last: Span, trim: Option<nat>): Span {
    if trim.Some? && last.Len() >= trim.value then Span(last.start, last.end - trim.value) else last
  }

  /** Ends the open segment, adding the extent of its spans to the total. */
  function Close(s: State, trim: Option<nat>): State {
    match s.last
    case None => s.(earlier := None)
    case Some(untrimmed) =>
      var last := Trimmed(untrimmed, trim);
      var duration := Extent(s.earlier, last).Len();
      s.(total := SaturatingAdd(s.total, duration),
         previous := Some(Closed(s.segment, s.earlier, last, duration, s.gap)),
         earlier := None,
         last := None,
         nextSegment := s.nextSegment + 1,
         segment := s.nextSegment + 1)
  }

  /** Whether `next` goes back to the previous segment after a short stay elsewhere. */
  predicate ReturnsFromExcursion(s: State, next: Span) {
    && s.gap.Some? && s.previous.Some? && s.last.Some?
    && Extent(s.earlier, s.last.value).Len() <= STEP_GAP_NS
    && Abs(next.start - s.previous.value.last.end) <= STEP_GAP_NS
  }

  /** The previous segment is open again and the open one is abandoned. */
  function Reopened(s: State): State
    requires s.gap.Some? && s.previous.Some?
  {
    var p := s.previous.value;
    s.(total := SaturatingSub(s.total, p.duration),
       steps := if s.gap.value.kind.StepGap? then SaturatingSub(s.steps, 1) else s.steps,
       abandoned := s.abandoned + [s.segment],
       segment := p.segment,
       earlier := p.earlier,
       last := Some(p.last),
       gap := p.gap,
       previous := None)
  }

  /** Whether `span` starts too far from the end of the last span. */
  predicate Jumps(s: State, span: Span) {
    s.last.Some? && Abs(span.start - s.last.value.end) > STEP_GAP_NS
  }

  function KindOf(authoritative: bool, jump: int): GapKind {
    if !authoritative then StepGap else if jump > 0 then PauseGap else SplitGap
  }

  /** Opens a new segment after the jump to `span`. */
  function OpenAfterJump(s: State, span: Span): State
    requires s.last.Some?
  {
    var jump := span.start - s.last.value.end;
    var kind := KindOf(s.authoritative, jump);
    var closed := Close(SettlePause(s), None);
    closed.(steps := if kind.StepGap? then closed.steps + 1 else closed.steps,
            gap := Some(Gap(span.start, jump, kind)))
  }

  /** The state once a jump to `span`, if there is one, has been dealt with. */
  function AfterJump(s: State, span: Span): State {
    if !Jumps(s, span) then s
    else if ReturnsFromExcursion(s, span) then Reopened(s)
    else OpenAfterJump(s, span)
  }

  /** Makes `span` the last span of the open segment. */
  function Extend(s: State, span: Span): State {
    s.(earlier := if s.last.Some? then Some(Extent(s.earlier, s.last.value)) else s.earlier,
       last := Some(span))
  }

  /** Settles a tentative pause once the data after it is long enough. */
  function SettleIfLong(s: State): State {
    if s.last.Some? && Extent(s.earlier, s.last.value).Len() > STEP_GAP_NS then SettlePause(s) else s
  }

  function Push(s: State, span: Span): State {
    SettleIfLong(Extend(AfterJump(s, span), span))
  }

  /** Moves the previous segment by the step into the open one; without a
      previous segment only the pause is added to the total. */
  function JoinAcrossStep(s: State, step: int, paused: nat): State {
    match s.previous
    case None => s.(total := SaturatingAdd(s.total, paused))
    case Some(p) =>
      s.(total := SaturatingSub(s.total, p.duration),
         merged := s.merged + [Join(p.segment, s.segment, step)],
         earlier := Some(Extent(s.earlier, Extent(p.earlier, p.last).Shifted(step))),
         gap := None,
         previous := None)
  }

  /** The pause found beside `step` when its record describes the pending gap. */
  function Described(s: State, step: int): Option<nat> {
    if s.gap.Some? then DescribedBy(s.gap.value, step, s.last) else None
  }

  function RecordStep(s: State, step: int, trimLast: bool): State {
    match Described(s, step)
    case Some(paused) =>
      var confirmed := s.(gap := None, steps := if s.gap.value.kind.StepGap? then s.steps else s.steps + 1);
      if s.authoritative && paused > 0 then JoinAcrossStep(confirmed, step, paused) else confirmed
    case None =>
      var closed := Close(SettlePause(s).(gap := None), if trimLast then Some(Abs(step)) else None);
      closed.(steps := closed.steps + 1)
  }

  /** The state as `finish` leaves it: any pause settled, the segment closed. */
  function Finished(s: State): State {
    Close(SettlePause(s), None)
  }

  function Finish(s: State): Report {
    Report(Finished(s).total, s.steps)
  }
}
