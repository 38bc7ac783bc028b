/** What the background scanner does for a file: no call passes it over, and what is queued
    gets scanned. */
module ScannerProgress {
  import opened Spans
  import opened Scanner

  // ---------------------------------------------------------------- what a call leaves behind

  /** What is known of a file that was seen under `stamp`: it is being looked after, or
      what the cache holds was made under that stamp. */
  predicate LookedAfter(s: State, key: Key, stamp: Stamp) {
    key in s.inFlight || (key in s.cache && s.cache[key] == stamp)
  }

  /** A thread that leaves the locked section leaves its file in flight, or cached under
      the stamp that the thread has read; a changed file is never passed over. */
  lemma ListingLooksAfter(files: map<Key, Stamp>, cache: map<Key, Stamp>, open: bool,
                          actions: seq<Action>, s: State, a: Action, t: ThreadId)
    requires Reaches(Init(files, cache, open), actions, s) && Enabled(s, a)
    requires s.lock == Some(t) && Do(s, a).lock != Some(t)
    ensures PcOf(s, t).Locked? || PcOf(s, t).Missed?
    ensures LookedAfter(Do(s, a), PcOf(s, t).key, PcOf(s, t).stamp)
  {
    Maintained(Init(files, cache, open), actions, s);
  }

  /** However a call comes to its end: the file it is about is then in flight, if the call
      was a listing, or cached under the stamp that the thread has read. */
  lemma CallLooksAfter(files: map<Key, Stamp>, cache: map<Key, Stamp>, open: bool,
                       actions: seq<Action>, s: State, a: Action, t: ThreadId)
    requires Reaches(Init(files, cache, open), actions, s) && Enabled(s, a)
    requires !PcOf(s, t).Idle? && PcOf(Do(s, a), t).Idle?
    ensures var s' := Do(s, a);
            match PcOf(s, t)
            case Statted(key, stamp, _) => key in s'.cache && s'.cache[key] == stamp
            case Reading(key, stamp) => key in s'.cache && s'.cache[key] == stamp
            case Releasing(key) => key !in s'.inFlight
            case Locked(key, stamp) => LookedAfter(s', key, stamp)
            case Missed(key, stamp) => LookedAfter(s', key, stamp)
            case Sending(key, stamp) => LookedAfter(s', key, stamp)
            case _ => false
  {
    Maintained(Init(files, cache, open), actions, s);
    hide Inv, Do, LookedAfter, Reaches;
    if PcOf(s, t).Sending? {
      SenderHolds(s, t);
    }
    OwnStep(s, a, t);
    OwnStepLooksAfter(s, a, t);
  }

  /** The steps that thread `t` takes. */
  predicate StepOf(a: Action, t: ThreadId) {
    match a
    case Begin(u, _, _) => u == t
    case LookUp(u) => u == t
    case Lock(u) => u == t
    case CheckLocked(u) => u == t
    case InsertLocked(u) => u == t
    case Send(u) => u == t
    case ScanInPlace(u) => u == t
    case Release(u) => u == t
    case CacheRead(u) => u == t
    case _ => false
  }

  lemma OwnStep(s: State, a: Action, t: ThreadId)
    requires Enabled(s, a) && PcOf(Do(s, a), t) != PcOf(s, t)
    ensures StepOf(a, t)
  {
  }

  lemma OwnStepLooksAfter(s: State, a: Action, t: ThreadId)
    requires Enabled(s, a) && StepOf(a, t) && PcOf(Do(s, a), t).Idle?
    requires PcOf(s, t).Sending? ==> PcOf(s, t).key in s.inFlight
    ensures var s' := Do(s, a);
            match PcOf(s, t)
            case Statted(key, stamp, _) => key in s'.cache && s'.cache[key] == stamp
            case Reading(key, stamp) => key in s'.cache && s'.cache[key] == stamp
            case Releasing(key) => key !in s'.inFlight
            case Locked(key, stamp) => LookedAfter(s', key, stamp)
            case Missed(key, stamp) => LookedAfter(s', key, stamp)
            case Sending(key, stamp) => LookedAfter(s', key, stamp)
            case _ => false
  {
  }

  lemma SenderHolds(s: State, t: ThreadId)
    requires Inv(s) && PcOf(s, t).Sending?
    ensures PcOf(s, t).key in s.inFlight
  {
    assert Holds(s, Thread(t), PcOf(s, t).key);
  }

  /** A call that finds its file cached under the stamp it has read ends at once; another goes
      on, a listing to the lock and a synchronous read to its own scan, with that stamp. */
  lemma LookUpDecides(s: State, t: ThreadId)
    requires Enabled(s, LookUp(t))
    ensures var Statted(key, stamp, listing) := PcOf(s, t);
            PcOf(Do(s, LookUp(t)), t)
            == if key in s.cache && s.cache[key] == stamp then Idle
               else if listing then Looked(key, stamp) else Reading(key, stamp)
  {
  }

  /** The scan that a step of the worker or of a thread belongs to. */
  function ScanOf(s: State, a: Action): Option<(Key, ScanPc)>
    requires Enabled(s, a)
  {
    match a
    case ScanStep => Some((s.worker.key, s.worker.scan))
    case ScanInPlace(t) => Some((PcOf(s, t).key, PcOf(s, t).scan))
    case _ => None
  }

  /** Whether the step ends the scan. */
  predicate EndsScan(s: State, a: Action)
    requires Enabled(s, a)
  {
    match a
    case ScanStep => Do(s, a).worker.Finishing?
    case ScanInPlace(t) => PcOf(Do(s, a), t).Releasing?
    case _ => false
  }

  /** A scan ends with the file cached under the stamp that the scan has read, unless the
      file cannot be read at that moment; then the cache is as it was. */
  lemma ScanCaches(s: State, a: Action)
    requires Enabled(s, a) && ScanOf(s, a).Some? && EndsScan(s, a)
    ensures var (key, scan) := ScanOf(s, a).value;
            if scan.Check? || scan.Insert? then key in Do(s, a).cache && Do(s, a).cache[key] == scan.stamp
            else key !in s.files && Do(s, a).cache == s.cache
    ensures var (key, scan) := ScanOf(s, a).value;
            forall other :: other in s.cache && other != key ==>
              other in Do(s, a).cache && Do(s, a).cache[other] == s.cache[other]
  {
  }

  /** A scan that goes on does so under the stamp that it has read, and it reads the file's
      stamp as it is when the scan begins. */
  lemma ScanKeepsStamp(s: State, a: Action)
    requires Enabled(s, a) && ScanOf(s, a).Some? && !EndsScan(s, a)
    ensures var (key, scan) := ScanOf(s, a).value;
            var next := match a
                        case ScanStep => Do(s, a).worker.scan
                        case ScanInPlace(t) => PcOf(Do(s, a), t).scan
                        case _ => Stat;
            && !next.Stat? && (if scan.Stat? then key in s.files && next.stamp == s.files[key]
                               else next.stamp == scan.stamp)
  {
  }

  // ---------------------------------------------------------------- scanned files are not scanned again

  /** A scan of the file has got beyond looking in the cache. */
  predicate OpensFile(s: State, key: Key, h: Holder) {
    match h
    case Thread(t) =>
      var pc := PcOf(s, t);
      pc.InPlace? && pc.key == key && (pc.scan.Map? || pc.scan.Insert?)
    case Worker => s.worker.Scanning? && s.worker.key == key && (s.worker.scan.Map? || s.worker.scan.Insert?)
    case Slot(_) => false
  }

  /** The file is cached as it is, and no scan opens it. */
  ghost predicate LeftAlone(s: State, key: Key, stamp: Stamp) {
    Unchanged(s, key, stamp) && Cached(s, key, stamp) && forall h: Holder :: !OpensFile(s, key, h)
  }

  lemma StepLeavesAlone(s: State, a: Action, key: Key, stamp: Stamp)
    requires LeftAlone(s, key, stamp) && CachedFirst(s, key, stamp) && Enabled(s, a) && LeavesAlone(a, key)
    ensures LeftAlone(Do(s, a), key, stamp) && CachedFirst(Do(s, a), key, stamp)
  {
    StepUnchanged(s, a, key, stamp);
    StepCachedFirst(s, a, key, stamp);
    forall h: Holder
      ensures !OpensFile(Do(s, a), key, h)
    {
      assert !OpensFile(s, key, h);
      if h.Thread? {
        assert SeenUnder(PcOf(s, h.t), key, stamp);
      }
    }
  }

  /** Once a file is cached as it is and no scan is at it, none opens it again in any run in
      which it does not change, whatever is listed, read or queued. */
  lemma {:induction false} CachedIsNotScanned(first: State, actions: seq<Action>, s: State, key: Key, stamp: Stamp)
    requires Reaches(first, actions, s) && forall a <- actions :: LeavesAlone(a, key)
    requires LeftAlone(first, key, stamp) && CachedFirst(first, key, stamp)
    ensures forall h: Holder :: !OpensFile(s, key, h)
    decreases |actions|
  {
    if |actions| > 0 {
      StepLeavesAlone(first, actions[0], key, stamp);
      CachedIsNotScanned(Do(first, actions[0]), actions[1..], s, key, stamp);
    }
  }

  // ---------------------------------------------------------------- queued files are scanned

  /** What the worker does next. */
  function WorkerStep(s: State): Action {
    match s.worker
    case Waiting => Take
    case Scanning(_, _) => ScanStep
    case Finishing(_) => Finish
  }

  function StepsLeft(s: State): nat {
    7 * |s.queue| +
    match s.worker
    case Waiting => 0
    case Finishing(_) => 1
    case Scanning(_, scan) =>
      match scan
      case Insert(_) => 2
      case Map(_) => 3
      case Check(_) => 4
      case Stat => 5
  }

  /** The worker alone, until it waits for more. */
  function Drained(s: State): (r: (seq<Action>, State))
    requires s.lock == None
    decreases StepsLeft(s)
  {
    if s.worker.Waiting? && |s.queue| == 0 then ([], s)
    else
      var rest := Drained(Do(s, WorkerStep(s)));
      ([WorkerStep(s)] + rest.0, rest.1)
  }

  /** The file is queued, being scanned as it is now, or scanned already. */
  predicate OnItsWay(s: State, key: Key) {
    && key in s.files
    && (|| key in s.queue
        || (s.worker.Scanning? && s.worker.key == key && ScanUnder(s.worker.scan, s.files[key]))
        || (key in s.cache && s.cache[key] == s.files[key]))
  }

  lemma WorkerBrings(s: State, key: Key)
    requires s.lock == None && Enabled(s, WorkerStep(s)) && OnItsWay(s, key)
    requires s.worker.Scanning? && s.worker.key == key ==> ScanUnder(s.worker.scan, s.files[key])
    ensures var s' := Do(s, WorkerStep(s));
            && OnItsWay(s', key) && s'.lock == None && s'.files == s.files && s'.threads == s.threads
            && (s'.worker.Scanning? && s'.worker.key == key ==> ScanUnder(s'.worker.scan, s'.files[key]))
  {
    assert s.worker.Waiting? ==> s.queue == [s.queue[0]] + s.queue[1..];
  }

  /** Left to itself while nothing else happens, the worker scans every file in the queue
      as it is now, and leaves none in the queue. */
  lemma {:induction false} QueuedIsScanned(s: State, key: Key)
    requires s.lock == None && OnItsWay(s, key)
    requires s.worker.Scanning? && s.worker.key == key ==> ScanUnder(s.worker.scan, s.files[key])
    ensures var (actions, s') := Drained(s);
            && Reaches(s, actions, s') && s'.queue == [] && s'.worker.Waiting?
            && key in s'.cache && s'.cache[key] == s.files[key]
    decreases StepsLeft(s)
  {
    if !(s.worker.Waiting? && |s.queue| == 0) {
      WorkerBrings(s, key);
      QueuedIsScanned(Do(s, WorkerStep(s)), key);
      var rest := Drained(Do(s, WorkerStep(s)));
      assert ([WorkerStep(s)] + rest.0)[1..] == rest.0;
    }
  }
}
