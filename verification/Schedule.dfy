/** The sampling task over time: full cycles, extra sampling in between, and the
    observers that both update. Timers fire on time, and a batch of samplers ends
    within the sample window. */
module Schedule {
  import opened Spans
  import opened TopicRequests

  const NS_PER_MS := 1_000_000
  const NS_PER_S := 1_000_000_000

  datatype Timing = Timing(refresh: nat, window: nat, availability: nat)

  const DEFAULT_TIMING := Timing(10 * NS_PER_S, 2 * NS_PER_S, (10 + 2 + 3) * NS_PER_S)

  /** One observer: who watches its topic, and what has been seen of it. */
  datatype Observer = Observer(bridges: nat, sampled: bool, lastSeen: Option<int>)

  /** What the sampling task is doing. */
  datatype Phase =
    | Cycling(due: set<nat>)
    | Waiting
    | Extra(due: set<nat>, began: int)

  /** A batch that has ended: when it ran and the observers it sampled. */
  datatype Batch = Batch(full: bool, began: int, ended: int, due: set<nat>)

  /** `started` is when the latest full cycle began; `present` numbers the observers of
      the topics now in the set: a topic added again gets a new observer. */
  datatype State = State(
    clock: int,
    started: int,
    phase: Phase,
    waking: bool,
    observers: seq<Observer>,
    present: set<nat>,
    cycles: seq<int>,
    batches: seq<Batch>)

  datatype Step =
    | Tick(to: int)
    | Add
    | Remove(id: nat)
    | Bridge(id: nat)
    | Unbridge(id: nat)
    | Seen(id: nat)
    | Wake
    | EndBatch(declared: set<nat>)
    | StartCycle

  /** Whether a batch begun at `now` is over by the cycle due at `next`. */
  predicate ExtraFits(now: int, next: int, window: nat) {
    next >= now && next - now >= window
  }

  function Due(s: State, pendingOnly: bool): set<nat> {
    set id | id in s.present && id < |s.observers| && s.observers[id].bridges == 0
             && (pendingOnly ==> !s.observers[id].sampled)
  }

  function Start(t0: int, builtin: nat): State {
    var observers := seq(builtin, _ => Observer(0, false, None));
    var present := set id: nat | id < |observers| && observers[id].bridges == 0;
    State(t0, t0, Cycling(present), false, observers, present, [t0], [])
  }

  function NextCycle(s: State, timing: Timing): int {
    s.started + timing.refresh
  }

  /** How far the clock can move before something else has to happen. */
  function Deadline(s: State, timing: Timing): int {
    match s.phase
    case Cycling(_) => s.started + timing.window
    case Waiting => Max(s.clock, NextCycle(s, timing))
    case Extra(_, began) => began + timing.window
  }

  predicate Sampling(s: State, id: nat) {
    match s.phase
    case Cycling(due) => id in due
    case Waiting => false
    case Extra(due, _) => id in due
  }

  predicate Enabled(s: State, step: Step, timing: Timing) {
    match step
    case Tick(to) => s.clock <= to <= Deadline(s, timing)
    case Add => true
    case Remove(id) => true
    case Bridge(id) => id < |s.observers| && id in s.present
    case Unbridge(id) => id < |s.observers| && s.observers[id].bridges > 0
    case Seen(id) => id < |s.observers| && (s.observers[id].bridges > 0 || Sampling(s, id))
    case Wake => s.phase.Waiting? && s.waking && s.clock < NextCycle(s, timing)
    case EndBatch(declared) => !s.phase.Waiting? && declared <= s.phase.due
    case StartCycle => s.phase.Waiting? && s.clock >= NextCycle(s, timing)
  }

  function Observed(o: Observer, at: int): Observer {
    o.(lastSeen := Some(if o.lastSeen.Some? then Max(o.lastSeen.value, at) else at))
  }

  function Marked(observers: seq<Observer>, declared: set<nat>): (r: seq<Observer>)
    ensures |r| == |observers|
    ensures forall id ::
            0 <= id < |r| ==> r[id] == if id in declared then observers[id].(sampled := true) else observers[id]
  {
    seq(|observers|, id requires 0 <= id < |observers| =>
      if id in declared then observers[id].(sampled := true) else observers[id])
  }

  function Apply(s: State, step: Step, timing: Timing): State
    requires Enabled(s, step, timing)
  {
    match step
    case Tick(to) => s.(clock := to)
    case Add => s.(observers := s.observers + [Observer(0, false, None)], present :=
        s.present + {|s.observers|}, waking := true)
    case Remove(id) => s.(present := s.present - {id})
    case Bridge(id) => s.(observers := s.observers[id := s.observers[id].(bridges := s.observers[id].bridges + 1)])
    case Unbridge(id) => s.(observers := s.observers[id := s.observers[id].(bridges := s.observers[id].bridges - 1)])
    case Seen(id) => s.(observers := s.observers[id := Observed(s.observers[id], s.clock)])
    case Wake =>
      if ExtraFits(s.clock, NextCycle(s, timing), timing.window)
      then s.(waking := false, phase := Extra(Due(s, true), s.clock)) else s.(waking := false)
    case EndBatch(declared) =>
      var began := if s.phase.Extra? then s.phase.began else s.started;
      s.(phase := Waiting, observers := Marked(s.observers, declared),
         batches := s.batches + [Batch(s.phase.Cycling?, began, s.clock, s.phase.due)])
    case StartCycle => s.(phase := Cycling(Due(s, false)), started := s.clock, cycles := s.cycles + [s.clock])
  }

  /** A run: the states that the steps lead through. */
  predicate Run(states: seq<State>, steps: seq<Step>, timing: Timing) {
    && |states| == |steps| + 1
    && forall i :: 0 <= i < |steps| ==> StepsTo(states, steps, i, timing)
  }

  predicate StepsTo(states: seq<State>, steps: seq<Step>, i: nat, timing: Timing)
    requires i < |steps| && |states| == |steps| + 1
  {
    Enabled(states[i], steps[i], timing) && states[i + 1] == Apply(states[i], steps[i], timing)
  }

  // ---------------------------------------------------------------- cycles are apart, batches do not overlap

  predicate ApartAt(cycles: seq<int>, i: nat, refresh: nat)
    requires i + 1 < |cycles|
  {
    cycles[i + 1] == cycles[i] + refresh
  }

  /** Every cycle began exactly one refresh after the one before. */
  predicate CyclesApart(cycles: seq<int>, refresh: nat) {
    forall i :: 0 <= i < |cycles| - 1 ==> ApartAt(cycles, i, refresh)
  }

  predicate Separate(batches: seq<Batch>) {
    && (forall i :: 0 <= i < |batches| ==> batches[i].began <= batches[i].ended)
    && forall i, j :: 0 <= i < j < |batches| ==> batches[i].ended <= batches[j].began
  }

  /** The batch now running, if any, began after every other ended. */
  predicate InTurn(s: State) {
    forall b <- s.batches :: b.ended <= match s.phase
                             case Cycling(_) => s.started
                             case Waiting => s.clock
                             case Extra(_, began) => began
  }

  predicate OnTime(s: State, timing: Timing) {
    match s.phase
    case Cycling(_) => s.started <= s.clock <= s.started + timing.window
    case Waiting => s.started <= s.clock <= NextCycle(s, timing)
    case Extra(_, began) =>
      s.started <= began <= s.clock <= began + timing.window && began + timing.window <= NextCycle(s, timing)
  }

  predicate Scheduled(s: State, t0: int, timing: Timing) {
    && |s.cycles| > 0 && s.cycles[0] == t0 && s.cycles[|s.cycles| - 1] == s.started
    && CyclesApart(s.cycles, timing.refresh)
    && Separate(s.batches) && InTurn(s) && OnTime(s, timing)
  }

  lemma CycleMore(cycles: seq<int>, at: int, refresh: nat)
    requires |cycles| > 0 && CyclesApart(cycles, refresh) && at == cycles[|cycles| - 1] + refresh
    ensures CyclesApart(cycles + [at], refresh)
  {
    forall i | 0 <= i < |cycles|
      ensures ApartAt(cycles + [at], i, refresh)
    {
      assert i < |cycles| - 1 ==> ApartAt(cycles, i, refresh);
    }
  }

  lemma StepKeepsSchedule(s: State, step: Step, t0: int, timing: Timing)
    requires timing.window <= timing.refresh
    requires Scheduled(s, t0, timing) && Enabled(s, step, timing)
    ensures Scheduled(Apply(s, step, timing), t0, timing)
  {
    hide CyclesApart, Due, Marked;
    if step.StartCycle? {
      CycleMore(s.cycles, s.clock, timing.refresh);
    }
  }

  lemma {:induction false} RunIsScheduled(states: seq<State>, steps: seq<Step>, n: nat, t0: int, builtin: nat,
                                          timing: Timing)
    requires timing.window <= timing.refresh
    requires Run(states, steps, timing) && states[0] == Start(t0, builtin) && n < |states|
    ensures Scheduled(states[n], t0, timing)
  {
    hide Scheduled, Apply, Enabled;
    if n == 0 {
      StartIsScheduled(t0, builtin, timing);
    } else {
      RunIsScheduled(states, steps, n - 1, t0, builtin, timing);
      assert StepsTo(states, steps, n - 1, timing);
      StepKeepsSchedule(states[n - 1], steps[n - 1], t0, timing);
    }
  }

  lemma StartIsScheduled(t0: int, builtin: nat, timing: Timing)
    ensures Scheduled(Start(t0, builtin), t0, timing)
  {
  }

  /** Whatever wakes the sampler and whenever: cycle `k` begins exactly `k` refreshes
      after the first, and no two batches of samplers overlap. */
  lemma CyclesNeverDrift(states: seq<State>, steps: seq<Step>, n: nat, t0: int, builtin: nat, timing: Timing)
    requires timing.window <= timing.refresh
    requires Run(states, steps, timing) && states[0] == Start(t0, builtin) && n < |states|
    ensures forall k :: 0 <= k < |states[n].cycles| ==> states[n].cycles[k] == t0 + k * timing.refresh
    ensures Separate(states[n].batches) && InTurn(states[n])
  {
    RunIsScheduled(states, steps, n, t0, builtin, timing);
    forall k | 0 <= k < |states[n].cycles|
      ensures states[n].cycles[k] == t0 + k * timing.refresh
    {
      CycleAt(states[n].cycles, k, timing.refresh);
    }
  }

  lemma {:induction false} CycleAt(cycles: seq<int>, k: nat, refresh: nat)
    requires k < |cycles| && CyclesApart(cycles, refresh)
    ensures cycles[k] == cycles[0] + k * refresh
  {
    if k > 0 {
      CycleAt(cycles, k - 1, refresh);
      assert ApartAt(cycles, k - 1, refresh);
      assert k * refresh == (k - 1) * refresh + refresh;
    }
  }

  // ---------------------------------------------------------------- a topic that publishes stays available

  function Millis(d: nat): nat {
    Min(d / NS_PER_MS, U64_MAX)
  }

  /** The availability rule. */
  predicate Available(lastSeen: Option<int>, now: int, availability: nat) {
    lastSeen.Some? && Millis(Since(now, lastSeen.value)) <= Millis(availability)
  }

  /** Whether the observer's topic is in the set and without a bridge. */
  predicate Watched(s: State, id: nat) {
    id < |s.observers| && id in s.present && s.observers[id].bridges == 0
  }

  /** A full cycle that samples the topic sees it before it ends. */
  predicate SeenBy(s: State, step: Step, id: nat) {
    step.EndBatch? && s.phase.Cycling? && id in s.phase.due && id < |s.observers| ==>
      s.observers[id].lastSeen.Some? && s.observers[id].lastSeen.value >= s.started
  }

  predicate SeenEachCycle(states: seq<State>, steps: seq<Step>, id: nat)
    requires |states| == |steps| + 1
  {
    forall i :: 0 <= i < |steps| ==> SeenBy(states[i], steps[i], id)
  }

  predicate WatchedFrom(states: seq<State>, m: nat, n: nat, id: nat)
    requires n < |states|
  {
    forall i :: m <= i <= n ==> Watched(states[i], id)
  }

  /** A full cycle covering the observer has ended after the first `from` batches. */
  predicate Covered(batches: seq<Batch>, from: nat, id: nat) {
    exists i :: from <= i < |batches| && batches[i].full && id in batches[i].due
  }

  lemma CoveredMore(batches: seq<Batch>, b: Batch, from: nat, id: nat)
    requires from <= |batches|
    ensures Covered(batches + [b], from, id) <==> Covered(batches, from, id) || (b.full && id in b.due)
  {
    var more := batches + [b];
    if Covered(batches, from, id) {
      var i :| from <= i < |batches| && batches[i].full && id in batches[i].due;
      assert more[i] == batches[i];
    }
    assert more[|batches|] == b;
  }

  /** Once covered: seen since the latest full cycle that has ended began. */
  predicate Fresh(s: State, id: nat, from: nat, timing: Timing)
    requires id < |s.observers|
  {
    from <= |s.batches| && (Covered(s.batches, from, id) ==>
      var seen := s.observers[id].lastSeen;
      && seen.Some?
      && match s.phase
         case Cycling(due) => id in due && seen.value >= s.started - timing.refresh
         case _ => seen.value >= s.started)
  }

  lemma StepKeepsFresh(s: State, step: Step, id: nat, from: nat, t0: int, timing: Timing)
    requires timing.window <= timing.refresh && Scheduled(s, t0, timing) && Enabled(s, step, timing)
    requires Watched(s, id) && Fresh(s, id, from, timing) && SeenBy(s, step, id) && Watched(Apply(s, step, timing), id)
    ensures Fresh(Apply(s, step, timing), id, from, timing)
  {
    hide CyclesApart, Separate, InTurn, Covered;
    if step.EndBatch? {
      var after := Apply(s, step, timing);
      CoveredMore(s.batches, after.batches[|s.batches|], from, id);
    }
  }

  lemma {:induction false} RunKeepsFresh(states: seq<State>, steps: seq<Step>, m: nat, n: nat, id: nat, t0: int,
                                         builtin: nat, timing: Timing)
    requires timing.window <= timing.refresh
    requires Run(states, steps, timing) && states[0] == Start(t0, builtin) && m <= n < |states|
    requires WatchedFrom(states, m, n, id) && SeenEachCycle(states, steps, id)
    ensures Watched(states[n], id) && Fresh(states[n], id, |states[m].batches|, timing)
  {
    hide Scheduled, Apply, Enabled, SeenBy;
    assert Watched(states[n], id);
    if m < n {
      RunKeepsFresh(states, steps, m, n - 1, id, t0, builtin, timing);
      RunIsScheduled(states, steps, n - 1, t0, builtin, timing);
      assert StepsTo(states, steps, n - 1, timing);
      assert SeenBy(states[n - 1], steps[n - 1], id);
      hide Fresh, Watched;
      StepKeepsFresh(states[n - 1], steps[n - 1], id, |states[m].batches|, t0, timing);
    }
  }

  /** A topic in the set and without a bridge since `m`, and seen in every full cycle
      that samples it, is never older than a refresh and a window once one of those has
      ended, and so is reported available if the availability window allows for that. */
  lemma StaysAvailable(states: seq<State>, steps: seq<Step>, m: nat, n: nat, id: nat, t0: int, builtin: nat,
                       timing: Timing)
    requires timing.window <= timing.refresh
    requires Run(states, steps, timing) && states[0] == Start(t0, builtin) && m <= n < |states|
    requires WatchedFrom(states, m, n, id) && SeenEachCycle(states, steps, id)
    requires Covered(states[n].batches, |states[m].batches|, id)
    ensures id < |states[n].observers|
    ensures var seen := states[n].observers[id].lastSeen;
            && seen.Some? && Since(states[n].clock, seen.value) <= timing.refresh + timing.window
            && (timing.refresh + timing.window <= timing.availability ==>
                Available(seen, states[n].clock, timing.availability))
  {
    hide Covered, CyclesApart, Separate, InTurn, WatchedFrom, SeenEachCycle, Run;
    RunKeepsFresh(states, steps, m, n, id, t0, builtin, timing);
    RunIsScheduled(states, steps, n, t0, builtin, timing);
    var seen := states[n].observers[id].lastSeen;
    var age := Since(states[n].clock, seen.value);
    if timing.refresh + timing.window <= timing.availability {
      MillisMonotone(age, timing.availability);
    }
  }

  /** With the timing the program ships with, such a topic is always available. */
  lemma AvailableByDefault(states: seq<State>, steps: seq<Step>, m: nat, n: nat, id: nat, t0: int, builtin: nat)
    requires Run(states, steps, DEFAULT_TIMING) && states[0] == Start(t0, builtin) && m <= n < |states|
    requires WatchedFrom(states, m, n, id) && SeenEachCycle(states, steps, id)
    requires Covered(states[n].batches, |states[m].batches|, id)
    ensures id < |states[n].observers|
    ensures Available(states[n].observers[id].lastSeen, states[n].clock, DEFAULT_TIMING.availability)
  {
    StaysAvailable(states, steps, m, n, id, t0, builtin, DEFAULT_TIMING);
  }

  /** Nothing is seen of the observer's topic from state `m` to state `n`. */
  predicate SilentFrom(steps: seq<Step>, m: nat, n: nat, id: nat)
    requires n <= |steps|
  {
    forall i :: m <= i < n ==> steps[i] != Seen(id)
  }

  lemma {:induction false} SilenceKeepsSighting(states: seq<State>, steps: seq<Step>, m: nat, n: nat, id: nat,
                                                timing: Timing)
    requires Run(states, steps, timing) && m <= n < |states| && SilentFrom(steps, m, n, id)
    requires id < |states[m].observers|
    ensures id < |states[n].observers| && states[n].observers[id].lastSeen == states[m].observers[id].lastSeen
  {
    if m < n {
      SilenceKeepsSighting(states, steps, m, n - 1, id, timing);
      assert StepsTo(states, steps, n - 1, timing);
      assert steps[n - 1] != Seen(id);
    }
  }

  /** A topic that has gone silent is available as long as less than the availability window,
      in whole milliseconds, and a millisecond have passed since it was last seen, and no longer;
      one that was never seen is not available. */
  lemma SilentIsUnavailable(states: seq<State>, steps: seq<Step>, m: nat, n: nat, id: nat, timing: Timing)
    requires Run(states, steps, timing) && m <= n < |states| && SilentFrom(steps, m, n, id)
    requires id < |states[m].observers| && timing.availability / NS_PER_MS < U64_MAX
    ensures id < |states[n].observers|
    ensures var seen := states[m].observers[id].lastSeen;
            Available(states[n].observers[id].lastSeen, states[n].clock, timing.availability)
            <==> seen.Some? && states[n].clock < seen.value + (timing.availability / NS_PER_MS + 1) * NS_PER_MS
  {
    SilenceKeepsSighting(states, steps, m, n, id, timing);
  }

  lemma MillisMonotone(a: nat, b: nat)
    requires a <= b
    ensures Millis(a) <= Millis(b)
  {
  }

  // ---------------------------------------------------------------- a new topic is sampled by the next cycle

  /** A full batch that began at `at` and covers the observer has ended. */
  predicate CoveredAt(batches: seq<Batch>, at: int, id: nat) {
    exists i :: 0 <= i < |batches| && batches[i].full && batches[i].began == at && id in batches[i].due
  }

  lemma CoveredAtMore(batches: seq<Batch>, b: Batch, at: int, id: nat)
    ensures CoveredAt(batches + [b], at, id) <==> CoveredAt(batches, at, id) || (b.full && b.began == at && id in b.due)
  {
    var more := batches + [b];
    if CoveredAt(batches, at, id) {
      var i :| 0 <= i < |batches| && batches[i].full && batches[i].began == at && id in batches[i].due;
      assert more[i] == batches[i];
    }
    assert more[|batches|] == b;
  }

  /** Since a state with `count` cycles the latest of which began at `started`: either no
      cycle has begun, or the next one covers or covered the observer. */
  predicate NextCovers(s: State, id: nat, started: int, count: nat, timing: Timing) {
    var next := started + timing.refresh;
    if |s.cycles| == count then s.started == started
    else
      && |s.cycles| > count
      && (CoveredAt(s.batches, next, id) || (s.phase.Cycling? && s.started == next && id in s.phase.due))
  }

  lemma StepKeepsCover(s: State, step: Step, id: nat, started: int, count: nat, t0: int, timing: Timing)
    requires timing.window <= timing.refresh && Scheduled(s, t0, timing) && Enabled(s, step, timing)
    requires Watched(s, id) && NextCovers(s, id, started, count, timing)
    ensures NextCovers(Apply(s, step, timing), id, started, count, timing)
  {
    hide CyclesApart, Separate, InTurn, CoveredAt;
    if step.EndBatch? {
      var after := Apply(s, step, timing);
      CoveredAtMore(s.batches, after.batches[|s.batches|], started + timing.refresh, id);
    }
  }

  lemma {:induction false} RunKeepsCover(states: seq<State>, steps: seq<Step>, m: nat, n: nat, id: nat, t0: int,
                                         builtin: nat, timing: Timing)
    requires timing.window <= timing.refresh
    requires Run(states, steps, timing) && states[0] == Start(t0, builtin) && m <= n < |states|
    requires WatchedFrom(states, m, n, id)
    ensures NextCovers(states[n], id, states[m].started, |states[m].cycles|, timing)
  {
    hide Scheduled, Apply, Enabled, NextCovers;
    if m == n {
      assert NextCovers(states[n], id, states[m].started, |states[m].cycles|, timing) by {
        CoversAtFirst(states[m], id, timing);
      }
    } else {
      RunKeepsCover(states, steps, m, n - 1, id, t0, builtin, timing);
      RunIsScheduled(states, steps, n - 1, t0, builtin, timing);
      assert StepsTo(states, steps, n - 1, timing);
      assert Watched(states[n - 1], id);
      StepKeepsCover(states[n - 1], steps[n - 1], id, states[m].started, |states[m].cycles|, t0, timing);
    }
  }

  lemma CoversAtFirst(s: State, id: nat, timing: Timing)
    ensures NextCovers(s, id, s.started, |s.cycles|, timing)
  {
  }

  /** A topic in the set and without a bridge since `m`, whenever and however it was
      added, is sampled by the first full cycle after that, which begins within a
      refresh of the latest one at `m` and ends within a window. */
  lemma SampledByNextCycle(states: seq<State>, steps: seq<Step>, m: nat, n: nat, id: nat, t0: int, builtin: nat,
                           timing: Timing)
    requires timing.window <= timing.refresh
    requires Run(states, steps, timing) && states[0] == Start(t0, builtin) && m <= n < |states|
    requires WatchedFrom(states, m, n, id)
    requires states[n].clock > states[m].started + timing.refresh + timing.window
    ensures CoveredAt(states[n].batches, states[m].started + timing.refresh, id)
    ensures states[m].started + timing.refresh >= states[m].clock
  {
    hide CoveredAt, CyclesApart, Separate, InTurn, WatchedFrom, Run;
    RunKeepsCover(states, steps, m, n, id, t0, builtin, timing);
    RunIsScheduled(states, steps, n, t0, builtin, timing);
    RunIsScheduled(states, steps, m, t0, builtin, timing);
  }

  // ---------------------------------------------------------------- extra sampling

  /** A wake-up between cycles begins extra sampling exactly when that can end before the
      next cycle, and of exactly the topics without a bridge that nothing has sampled yet. */
  lemma WakeSamplesPending(s: State, timing: Timing)
    requires Enabled(s, Wake, timing)
    ensures var s', next := Apply(s, Wake, timing), s.started + timing.refresh;
            && !s'.waking && s'.observers == s.observers && s'.clock == s.clock
            && (if s.clock + timing.window <= next
                then s'.phase.Extra? && s'.phase.began == s.clock
                     && forall id: nat :: id in s'.phase.due <==> Watched(s, id) && !s.observers[id].sampled
                else s'.phase == Waiting)
  {
  }

  /** A topic that is added wakes the sampler: from then on a wake-up is pending until it comes. */
  lemma {:induction false} AddingWakes(states: seq<State>, steps: seq<Step>, m: nat, n: nat, timing: Timing)
    requires Run(states, steps, timing) && m < n < |states| && steps[m] == Add
    requires forall i :: m < i < n ==> steps[i] != Wake
    ensures states[n].waking
  {
    hide Marked, Due, Observed;
    assert StepsTo(states, steps, n - 1, timing);
    if m < n - 1 {
      AddingWakes(states, steps, m, n - 1, timing);
      assert steps[n - 1] != Wake;
    }
  }

  /** No batch ends from state `k` to state `n`. */
  predicate StillRunning(steps: seq<Step>, k: nat, n: nat)
    requires n <= |steps|
  {
    forall i :: k <= i < n ==> !steps[i].EndBatch?
  }

  lemma {:induction false} ExtraGoesOn(states: seq<State>, steps: seq<Step>, k: nat, n: nat, timing: Timing)
    requires Run(states, steps, timing) && k <= n < |states| && states[k].phase.Extra?
    requires StillRunning(steps, k, n)
    ensures states[n].phase == states[k].phase
  {
    hide Marked, Due, Observed;
    if k < n {
      ExtraGoesOn(states, steps, k, n - 1, timing);
      assert StepsTo(states, steps, n - 1, timing);
      assert !steps[n - 1].EndBatch?;
    }
  }

  /** A topic that is pending when the sampler is woken with time enough before the next
      cycle is sampled at once: the batch that ends next covers it, and ends within a window. */
  lemma PendingIsSampledSoon(states: seq<State>, steps: seq<Step>, k: nat, n: nat, id: nat, t0: int, builtin: nat,
                             timing: Timing)
    requires timing.window <= timing.refresh
    requires Run(states, steps, timing) && states[0] == Start(t0, builtin) && k < n < |steps|
    requires steps[k] == Wake && states[k].clock + timing.window <= states[k].started + timing.refresh
    requires Watched(states[k], id) && !states[k].observers[id].sampled
    requires StillRunning(steps, k + 1, n) && steps[n].EndBatch?
    ensures var batches := states[n + 1].batches;
            |batches| > 0 &&
            var batch := batches[|batches| - 1];
            && id in batch.due && !batch.full
            && batch.began == states[k].clock && batch.ended <= states[k].clock + timing.window
  {
    hide Marked, Due, Scheduled, CyclesApart, Separate;
    assert StepsTo(states, steps, k, timing) && StepsTo(states, steps, n, timing);
    WakeSamplesPending(states[k], timing);
    ExtraGoesOn(states, steps, k + 1, n, timing);
    RunIsScheduled(states, steps, n, t0, builtin, timing);
    ScheduledOnTime(states[n], t0, timing);
  }

  lemma ScheduledOnTime(s: State, t0: int, timing: Timing)
    requires Scheduled(s, t0, timing)
    ensures OnTime(s, timing)
  {
  }

  /** What is sampled: a full cycle begins with exactly the topics without a bridge. */
  lemma CycleSamplesAll(s: State, timing: Timing)
    requires Enabled(s, StartCycle, timing)
    ensures var s' := Apply(s, StartCycle, timing);
            s'.phase.Cycling? && forall id: nat :: id in s'.phase.due <==> Watched(s, id)
  {
  }

  /** The first full cycle samples every built-in topic. */
  lemma FirstCycleSamplesAll(t0: int, builtin: nat)
    ensures var first := Start(t0, builtin);
            first.phase.Cycling? && forall id: nat :: id in first.phase.due <==> id < builtin
  {
  }

  /** A topic that is added is in the set, unbridged, and neither seen nor sampled so far. */
  lemma AddedIsPending(s: State, timing: Timing)
    ensures var s', id := Apply(s, Add, timing), |s.observers|;
            && Watched(s', id) && !s'.observers[id].sampled && s'.observers[id].lastSeen == None
            && s'.waking && s'.observers[..id] == s.observers && s'.present == s.present + {id}
  {
  }
}
