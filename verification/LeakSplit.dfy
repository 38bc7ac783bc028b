/** Finding the post-step messages that were written before the step's record. */
module Leak {
  import opened Spans

  /** A message: its log time and its channel. */
  type Stamp = (nat, nat)

  /** The log times taking part in pairs: the end of the data before, then the messages. */
  function Points(before: Option<int>, times: seq<Stamp>): (points: seq<int>)
    ensures |points| == Sentinel(before) + |times|
    ensures forall i :: 0 <= i < |times| ==> points[Sentinel(before) + i] == times[i].0
    ensures before.Some? ==> points[0] == before.value
  {
    (if before.Some? then [before.value] else []) + seq(|times|, i requires 0 <= i < |times| => times[i].0)
  }

  function Sentinel(before: Option<int>): nat {
    if before.Some? then 1 else 0
  }

  /** Whether the data after the record does not continue the time base of
      the last message, `e`. */
  predicate Vetoed(e: int, step: int, after: Option<nat>) {
    after.Some? && Abs(after.value - e) >= Abs(after.value - e - step)
  }

  /** Where the trailing run of points near `e` starts. */
  function Tail(points: seq<int>, e: int): (tail: nat)
    ensures tail <= |points|
    ensures forall i :: tail <= i < |points| ==> Abs(points[i] - e) <= STEP_GAP_NS
    ensures tail > 0 ==> Abs(points[tail - 1] - e) > STEP_GAP_NS
  {
    if |points| == 0 then 0
    else if Abs(points[|points| - 1] - e) <= STEP_GAP_NS then Tail(points[..|points| - 1], e)
    else |points|
  }

  /** How far the difference ending at `i` is from `step`. */
  function Miss(points: seq<int>, i: nat, step: int): nat
    requires 0 < i < |points|
  {
    Abs(points[i] - points[i - 1] - step)
  }

  /** Whether the difference ending at `i` is near `step`, and nearer to `step` than to zero. */
  predicate Candidate(points: seq<int>, i: nat, step: int)
    requires 0 < i < |points|
  {
    Miss(points, i, step) <= STEP_GAP_NS && Miss(points, i, step) < Abs(points[i] - points[i - 1])
  }

  /** The candidate in `from..to` with the least miss, the latest on ties. */
  function Best(points: seq<int>, step: int, from: nat, to: nat): (best: Option<nat>)
    requires 0 < from && to <= |points|
    ensures best.Some? ==> from <= best.value < to && Candidate(points, best.value, step)
    ensures best.Some? ==> forall j :: from <= j < to && Candidate(points, j, step) ==>
              Miss(points, best.value, step) <= Miss(points, j, step)
    ensures best.Some? ==> forall j :: best.value < j < to && Candidate(points, j, step) ==>
              Miss(points, best.value, step) < Miss(points, j, step)
    ensures best == None ==> forall j :: from <= j < to ==> !Candidate(points, j, step)
  {
    if to <= from then None
    else
      var best := Best(points, step, from, to - 1);
      if Candidate(points, to - 1, step)
         && (best == None || Miss(points, to - 1, step) <= Miss(points, best.value, step))
      then Some(to - 1) else best
  }

  /** The best difference ending in the trailing run of points near `e`. */
  function BestEligible(points: seq<int>, e: int, step: int): (best: Option<nat>)
    ensures best.Some? ==> 0 < best.value < |points|
  {
    Best(points, step, Max(Tail(points, e), 1), |points|)
  }

  /** Where among the messages before a record those taken after its step begin, if
      there are any. */
  function LeakSplit(times: seq<Stamp>, step: int, before: Option<int>, after: Option<nat>): (split: Option<nat>)
    ensures split.Some? ==> split.value < |times|
  {
    if |times| == 0 then None
    else
      var e := times[|times| - 1].0;
      if Vetoed(e, step, after) then None
      else
        match BestEligible(Points(before, times), e, step)
        case None => None
        case Some(i) => Some(i - Sentinel(before))
  }

  /** A difference ending in the trailing run that could be the step. */
  predicate Eligible(points: seq<int>, e: int, step: int, i: nat) {
    0 < i < |points| && Tail(points, e) <= i && Candidate(points, i, step)
  }

  /** `i` is the pair with the least miss among the eligible ones, the latest on ties. */
  ghost predicate LeastMiss(points: seq<int>, e: int, step: int, i: nat) {
    && Eligible(points, e, step, i)
    && (forall j: nat :: Eligible(points, e, step, j) ==> Miss(points, i, step) <= Miss(points, j, step))
    && (forall j: nat :: Eligible(points, e, step, j) && j > i ==> Miss(points, i, step) < Miss(points, j, step))
  }

  lemma BestIsLeastMiss(points: seq<int>, e: int, step: int)
    ensures match BestEligible(points, e, step)
            case None => forall j: nat :: !Eligible(points, e, step, j)
            case Some(i) => LeastMiss(points, e, step, i)
  {
    var best := BestEligible(points, e, step);
    var from := Max(Tail(points, e), 1);
    forall j: nat | Eligible(points, e, step, j)
      ensures best.Some? && Miss(points, best.value, step) <= Miss(points, j, step)
      ensures best.Some? && j > best.value ==> Miss(points, best.value, step) < Miss(points, j, step)
    {
      assert from <= j < |points|;
    }
  }

  /** A difference closer to the step than to no change has the step's direction. */
  predicate SameDirection(points: seq<int>, i: nat, step: int)
    requires 0 < i < |points|
  {
    if step > 0 then points[i] > points[i - 1] else step < 0 && points[i] < points[i - 1]
  }

  lemma BestIsInDirection(points: seq<int>, e: int, step: int)
    ensures var best := BestEligible(points, e, step);
            best.Some? ==> SameDirection(points, best.value, step)
  {
    var best := BestEligible(points, e, step);
    if best.Some? {
      assert Candidate(points, best.value, step);
    }
  }

  /** What the split is in general: the least miss among the eligible pairs,
      the latest on ties, always in the step's direction. */
  lemma SplitIsBest(times: seq<Stamp>, step: int, before: Option<int>, after: Option<nat>)
    requires |times| > 0
    ensures var points := Points(before, times);
            var e := times[|times| - 1].0;
            match LeakSplit(times, step, before, after)
            case None => Vetoed(e, step, after) || forall j: nat :: !Eligible(points, e, step, j)
            case Some(k) =>
              var i := k + Sentinel(before);
              !Vetoed(e, step, after) && LeastMiss(points, e, step, i) && SameDirection(points, i, step)
  {
    BestIsLeastMiss(Points(before, times), times[|times| - 1].0, step);
    BestIsInDirection(Points(before, times), times[|times| - 1].0, step);
  }

  // ---------------------------------------------------------------- the split, told from the messages

  /** Where the data was just before message `i`. */
  function TimeBefore(times: seq<Stamp>, before: Option<int>, i: nat): Option<int>
    requires i < |times|
  {
    if i > 0 then Some(times[i - 1].0) else before
  }

  /** How far the change to message `i` is from the step. */
  function StepMiss(times: seq<Stamp>, before: Option<int>, step: int, i: nat): nat
    requires i < |times| && TimeBefore(times, before, i).Some?
  {
    Abs(times[i].0 - TimeBefore(times, before, i).value - step)
  }

  /** The change to message `i` looks like the step: it is within the threshold of it, and
      nearer to it than to no change; and from there on the messages are within the threshold
      of the last one. */
  predicate LooksLikeStep(times: seq<Stamp>, before: Option<int>, step: int, i: nat) {
    && i < |times| && TimeBefore(times, before, i).Some?
    && StepMiss(times, before, step, i) <= STEP_GAP_NS
    && StepMiss(times, before, step, i) < Abs(times[i].0 - TimeBefore(times, before, i).value)
    && forall j :: i <= j < |times| ==> NearLast(times, j)
  }

  predicate NearLast(times: seq<Stamp>, j: nat)
    requires j < |times|
  {
    var last: int := times[|times| - 1].0;
    Abs(times[j].0 - last) <= STEP_GAP_NS
  }

  /** What comes after the record is at least as near to the last message moved by the step
      as to the last message itself. */
  predicate SpeaksAgainst(last: int, step: int, after: Option<nat>) {
    after.Some? && Abs(after.value - (last + step)) <= Abs(after.value - last)
  }

  lemma EligibleTold(times: seq<Stamp>, before: Option<int>, step: int, i: nat)
    requires |times| > 0 && i < |times|
    ensures var points := Points(before, times);
            && (Eligible(points, times[|times| - 1].0, step, i + Sentinel(before)) <==>
                LooksLikeStep(times, before, step, i))
            && (TimeBefore(times, before, i).Some? ==>
                Miss(points, i + Sentinel(before), step) == StepMiss(times, before, step, i))
  {
    hide Tail, NearLast, Points;
    TailTold(times, before, i);
    PointsTold(times, before, i);
  }

  lemma PointsTold(times: seq<Stamp>, before: Option<int>, i: nat)
    requires i < |times|
    ensures var points, at := Points(before, times), i + Sentinel(before);
            && at < |points| && points[at] == times[i].0
            && (at > 0 <==> TimeBefore(times, before, i).Some?)
            && (at > 0 ==> points[at - 1] == TimeBefore(times, before, i).value)
  {
    var points := Points(before, times);
    assert points[Sentinel(before) + i] == times[i].0;
    if i > 0 {
      assert points[Sentinel(before) + (i - 1)] == times[i - 1].0;
    }
  }

  lemma TailTold(times: seq<Stamp>, before: Option<int>, i: nat)
    requires i < |times|
    ensures Tail(Points(before, times), times[|times| - 1].0) <= i + Sentinel(before) <==>
              forall j :: i <= j < |times| ==> NearLast(times, j)
  {
    hide Tail;
    var points, e, n := Points(before, times), times[|times| - 1].0, Sentinel(before);
    if Tail(points, e) <= i + n {
      forall j | i <= j < |times|
        ensures NearLast(times, j)
      {
        assert points[n + j] == times[j].0;
      }
    } else {
      var tail := Tail(points, e) - 1;
      assert points[n + (tail - n)] == times[tail - n].0;
      assert !NearLast(times, tail - n);
    }
  }

  /** The messages are split at the change that looks most like the step, the latest if
      several do alike, and not at all when none does or what comes after the record speaks
      against it. */
  lemma SplitTold(times: seq<Stamp>, step: int, before: Option<int>, after: Option<nat>)
    requires |times| > 0
    ensures match LeakSplit(times, step, before, after)
            case None =>
              SpeaksAgainst(times[|times| - 1].0, step, after)
              || forall i: nat :: !LooksLikeStep(times, before, step, i)
            case Some(k) =>
              && !SpeaksAgainst(times[|times| - 1].0, step, after) && LooksLikeStep(times, before, step, k)
              && forall i: nat :: LooksLikeStep(times, before, step, i) ==>
                   if i <= k then StepMiss(times, before, step, k) <= StepMiss(times, before, step, i)
                   else StepMiss(times, before, step, k) < StepMiss(times, before, step, i)
  {
    hide LooksLikeStep, Eligible, BestEligible;
    SplitIsBest(times, step, before, after);
    forall i: nat | LooksLikeStep(times, before, step, i)
      ensures i < |times| && TimeBefore(times, before, i).Some?
    {
      IsMessage(times, before, step, i);
    }
    forall i: nat | i < |times|
      ensures var points := Points(before, times);
              && (Eligible(points, times[|times| - 1].0, step, i + Sentinel(before)) <==>
                  LooksLikeStep(times, before, step, i))
              && (TimeBefore(times, before, i).Some? ==>
                  Miss(points, i + Sentinel(before), step) == StepMiss(times, before, step, i))
    {
      EligibleTold(times, before, step, i);
    }
  }

  lemma IsMessage(times: seq<Stamp>, before: Option<int>, step: int, i: nat)
    requires LooksLikeStep(times, before, step, i)
    ensures i < |times| && TimeBefore(times, before, i).Some?
  {
  }

  /** Data that never goes back and never advances by more than `d` at a time. */
  predicate Steady(points: seq<int>, d: nat) {
    forall i :: 0 < i < |points| ==> Follows(points, i, d)
  }

  predicate Follows(points: seq<int>, i: nat, d: nat)
    requires 0 < i < |points|
  {
    0 <= points[i] - points[i - 1] <= d
  }

  lemma {:induction false} SteadyBound(points: seq<int>, d: nat, i: nat)
    requires Steady(points, d) && i < |points|
    ensures points[i] <= points[|points| - 1]
    decreases |points| - i
  {
    if i < |points| - 1 {
      assert Follows(points, i + 1, d);
      SteadyBound(points, d, i + 1);
    }
  }

  /** `post` continues `pre` after a step of `step`. */
  predicate SteppedFrom(pre: int, post: int, step: int, d: nat) {
    0 <= post - pre - step <= d
  }

  /** A pre-step run then a post-step run, the second starting at `boundary`
      and no longer than the gap threshold. */
  predicate SplitRun(points: seq<int>, step: int, d: nat, boundary: nat) {
    && 0 < boundary < |points|
    && Steady(points[..boundary], d) && Steady(points[boundary..], d)
    && SteppedFrom(points[boundary - 1], points[boundary], step, d)
    && points[|points| - 1] - points[boundary] <= STEP_GAP_NS
  }

  lemma TailCoversRun(points: seq<int>, step: int, d: nat, boundary: nat)
    requires SplitRun(points, step, d, boundary)
    ensures Tail(points, points[|points| - 1]) <= boundary
  {
    var e := points[|points| - 1];
    var post := points[boundary..];
    forall i | boundary <= i < |points|
      ensures Abs(points[i] - e) <= STEP_GAP_NS
    {
      SteadyBound(post, d, i - boundary);
      SteadyFirst(post, d, i - boundary);
      assert post[i - boundary] == points[i];
    }
  }

  lemma OnlyBoundary(points: seq<int>, step: int, d: nat, boundary: nat, j: nat)
    requires SplitRun(points, step, d, boundary)
    requires d <= STEP_GAP_NS && Abs(step) > 2 * d
    requires 0 < j < |points|
    ensures Candidate(points, j, step) <==> j == boundary
  {
    var pre, post := points[..boundary], points[boundary..];
    if j < boundary {
      assert Follows(pre, j, d);
      assert pre[j] == points[j] && pre[j - 1] == points[j - 1];
    } else if j > boundary {
      assert Follows(post, j - boundary, d);
      assert post[j - boundary] == points[j] && post[j - 1 - boundary] == points[j - 1];
    }
  }

  lemma BoundaryIsBest(points: seq<int>, step: int, d: nat, boundary: nat)
    requires SplitRun(points, step, d, boundary)
    requires d <= STEP_GAP_NS && Abs(step) > 2 * d
    ensures BestEligible(points, points[|points| - 1], step) == Some(boundary)
  {
    var e := points[|points| - 1];
    TailCoversRun(points, step, d, boundary);
    BestIsLeastMiss(points, e, step);
    OnlyBoundary(points, step, d, boundary, boundary);
    assert Eligible(points, e, step, boundary);
    OnlyBoundary(points, step, d, boundary, BestEligible(points, e, step).value);
  }

  /** Data that continues the time base of the last message speaks for a leak. */
  lemma ContinuingIsNotVetoed(e: int, step: int, after: Option<nat>, d: nat)
    requires after.Some? ==> 0 <= after.value - e <= d
    requires Abs(step) > 2 * d
    ensures !Vetoed(e, step, after)
  {
  }

  lemma SplitAtBest(times: seq<Stamp>, step: int, before: Option<int>, after: Option<nat>, i: nat)
    requires |times| > 0
    requires var e := times[|times| - 1].0;
             !Vetoed(e, step, after) && BestEligible(Points(before, times), e, step) == Some(i)
    ensures LeakSplit(times, step, before, after) == Some(i - Sentinel(before))
  {
  }

  /** When the points are a pre-step run and a short post-step run, the split is exactly the
      boundary between them, unless what follows the record speaks against any leak. */
  lemma LeakRecovered(times: seq<Stamp>, step: int, before: Option<int>, after: Option<nat>, d: nat, boundary: nat)
    requires |times| > 0
    requires SplitRun(Points(before, times), step, d, boundary) && Sentinel(before) <= boundary
    requires d <= STEP_GAP_NS && Abs(step) > 2 * d
    ensures LeakSplit(times, step, before, after) ==
            if Vetoed(times[|times| - 1].0, step, after) then None else Some(boundary - Sentinel(before))
  {
    hide SplitRun, Candidate, BestEligible;
    var points := Points(before, times);
    var e := times[|times| - 1].0;
    assert points[|points| - 1] == e;
    BoundaryIsBest(points, step, d, boundary);
    if !Vetoed(e, step, after) {
      SplitAtBest(times, step, before, after, boundary);
    }
  }

  lemma {:induction false} SteadyFirst(points: seq<int>, d: nat, i: nat)
    requires Steady(points, d) && i < |points|
    ensures points[0] <= points[i]
  {
    if i > 0 {
      assert Follows(points, i, d);
      SteadyFirst(points, d, i - 1);
    }
  }

  /** When nothing leaked, nothing is split off, whatever follows the record. */
  lemma NoLeakNoSplit(times: seq<Stamp>, step: int, before: Option<int>, after: Option<nat>, d: nat)
    requires Steady(Points(before, times), d)
    requires Abs(step) > 2 * d
    ensures LeakSplit(times, step, before, after) == None
  {
    var points := Points(before, times);
    forall j | 0 < j < |points|
      ensures !Candidate(points, j, step)
    {
      assert Follows(points, j, d);
    }
  }
}
