/** The background scanner as a protocol over a cache, an in-flight set and a
    queue, with any number of listing and synchronous reader threads. */
module Scanner {
  import opened Spans

  type Key = nat      // a file's path
  type Stamp = nat    // its length and modification time
  type ThreadId = nat

  /** Where a scan of one file into the cache has got to. */
  datatype ScanPc =
    | Stat                    // about to read the file's length and modification time
    | Check(stamp: Stamp)     // about to look in the cache
    | Map(stamp: Stamp)       // about to open the file
    | Insert(stamp: Stamp)    // scanned; about to cache the result

  /** Where a listing or reading thread has got to. */
  datatype Pc =
    | Idle
    | Statted(key: Key, stamp: Stamp, listing: bool)  // has read the file's metadata
    | Looked(key: Key, stamp: Stamp)                  // listing; the file is not cached
    | Locked(key: Key, stamp: Stamp)                  // holds the in-flight lock
    | Missed(key: Key, stamp: Stamp)                  // holds the lock; not in the cache
    | Sending(key: Key, stamp: Stamp)                 // has put the key in flight
    | InPlace(key: Key, scan: ScanPc)                 // the queue is closed: scanning itself
    | Releasing(key: Key)                             // scanned; about to take the key out of flight
    | Reading(key: Key, stamp: Stamp)                 // synchronous; about to cache its own scan

  datatype WorkerPc =
    | Waiting
    | Scanning(key: Key, scan: ScanPc)
    | Finishing(key: Key)

  datatype State = State(
    files: map<Key, Stamp>,        // the readable files
    cache: map<Key, Stamp>,        // the stamp each cached scan was made under
    inFlight: set<Key>,
    lock: Option<ThreadId>,        // the listing thread holding the in-flight lock
    queue: seq<Key>,
    open: bool,                    // whether the background thread could be started
    threads: map<ThreadId, Pc>,
    worker: WorkerPc,
    enqueued: map<Key, nat>)       // how often each key has been put in flight

  datatype Action =
    | Change(key: Key, stamp: Option<Stamp>)            // the file is written, or becomes unreadable
    | Begin(t: ThreadId, key: Key, listing: bool)       // read the file's metadata
    | LookUp(t: ThreadId)                               // look in the cache without the lock
    | Lock(t: ThreadId)
    | CheckLocked(t: ThreadId)                          // look in the cache under the lock
    | InsertLocked(t: ThreadId)                         // put the key in flight, and unlock
    | Send(t: ThreadId)
    | ScanInPlace(t: ThreadId)                          // one step of the thread's own scan
    | Release(t: ThreadId)
    | CacheRead(t: ThreadId)
    | Take                                              // the worker takes the head of the queue
    | ScanStep                                          // one step of the worker's scan
    | Finish                                            // the worker takes its key out of flight

  function Init(files: map<Key, Stamp>, cache: map<Key, Stamp>, open: bool): State {
    State(files, cache, {}, None, [], open, map[], Waiting, map[])
  }

  function PcOf(s: State, t: ThreadId): Pc {
    if t in s.threads then s.threads[t] else Idle
  }

  function Goto(s: State, t: ThreadId, pc: Pc): State {
    s.(threads := s.threads[t := pc])
  }

  predicate Cached(s: State, key: Key, stamp: Stamp) {
    key in s.cache && s.cache[key] == stamp
  }

  function Enqueued(s: State, key: Key): nat {
    if key in s.enqueued then s.enqueued[key] else 0
  }

  // ---------------------------------------------------------------- one step

  predicate Enabled(s: State, a: Action) {
    match a
    case Change(_, _) => true
    case Begin(t, key, _) => PcOf(s, t).Idle? && key in s.files
    case LookUp(t) => PcOf(s, t).Statted?
    case Lock(t) => PcOf(s, t).Looked? && s.lock == None
    case CheckLocked(t) => PcOf(s, t).Locked?
    case InsertLocked(t) => PcOf(s, t).Missed?
    case Send(t) => PcOf(s, t).Sending?
    case ScanInPlace(t) => PcOf(s, t).InPlace?
    case Release(t) => PcOf(s, t).Releasing? && s.lock == None
    case CacheRead(t) => PcOf(s, t).Reading?
    case Take => s.worker.Waiting? && |s.queue| > 0
    case ScanStep => s.worker.Scanning?
    case Finish => s.worker.Finishing? && s.lock == None
  }

  /** What one step of a scan of `key` does: where it goes next, unless it is
      over, and the cache afterwards. A file that cannot be read is left uncached. */
  function ScanNext(s: State, key: Key, scan: ScanPc): (Option<ScanPc>, map<Key, Stamp>) {
    match scan
    case Stat => (if key in s.files then Some(Check(s.files[key])) else None, s.cache)
    case Check(stamp) => (if Cached(s, key, stamp) then None else Some(Map(stamp)), s.cache)
    case Map(stamp) => (if key in s.files then Some(Insert(stamp)) else None, s.cache)
    case Insert(stamp) => (None, s.cache[key := stamp])
  }

  function Do(s: State, a: Action): State
    requires Enabled(s, a)
  {
    match a
    case Change(key, None) => s.(files := s.files - {key})
    case Change(key, Some(stamp)) => s.(files := s.files[key := stamp])
    case Begin(t, key, listing) => Goto(s, t, Statted(key, s.files[key], listing))
    case LookUp(t) =>
      var Statted(key, stamp, listing) := PcOf(s, t);
      Goto(s, t, if Cached(s, key, stamp) then Idle else if listing then Looked(key, stamp) else Reading(key, stamp))
    case Lock(t) =>
      var Looked(key, stamp) := PcOf(s, t);
      Goto(s, t, Locked(key, stamp)).(lock := Some(t))
    case CheckLocked(t) =>
      var Locked(key, stamp) := PcOf(s, t);
      if Cached(s, key, stamp) then Goto(s, t, Idle).(lock := None) else Goto(s, t, Missed(key, stamp))
    case InsertLocked(t) =>
      var Missed(key, stamp) := PcOf(s, t);
      if key in s.inFlight then Goto(s, t, Idle).(lock := None)
      else Goto(s, t, Sending(key, stamp)).(lock := None, inFlight := s.inFlight + {key},
                                            enqueued := s.enqueued[key := Enqueued(s, key) + 1])
    case Send(t) =>
      var Sending(key, stamp) := PcOf(s, t);
      if s.open then Goto(s, t, Idle).(queue := s.queue + [key]) else Goto(s, t, InPlace(key, Stat))
    case ScanInPlace(t) =>
      var InPlace(key, scan) := PcOf(s, t);
      var (next, cache) := ScanNext(s, key, scan);
      Goto(s, t, if next.Some? then InPlace(key, next.value) else Releasing(key)).(cache := cache)
    case Release(t) =>
      var Releasing(key) := PcOf(s, t);
      Goto(s, t, Idle).(inFlight := s.inFlight - {key})
    case CacheRead(t) =>
      var Reading(key, stamp) := PcOf(s, t);
      Goto(s, t, Idle).(cache := s.cache[key := stamp])
    case Take => s.(queue := s.queue[1..], worker := Scanning(s.queue[0], Stat))
    case ScanStep =>
      var (next, cache) := ScanNext(s, s.worker.key, s.worker.scan);
      s.(cache := cache, worker := if next.Some? then Scanning(s.worker.key, next.value) else Finishing(s.worker.key))
    case Finish => s.(inFlight := s.inFlight - {s.worker.key}, worker := Waiting)
  }

  /** `s` is reached from `first` by `actions`. */
  predicate Reaches(first: State, actions: seq<Action>, s: State)
    decreases |actions|
  {
    if |actions| == 0 then s == first
    else Enabled(first, actions[0]) && Reaches(Do(first, actions[0]), actions[1..], s)
  }

  // ---------------------------------------------------------------- ownership of keys in flight

  /** What can hold a key in flight. */
  datatype Holder =
    | Thread(t: ThreadId)
    | Slot(i: nat)
    | Worker

  predicate Holds(s: State, h: Holder, key: Key) {
    match h
    case Thread(t) =>
      var pc := PcOf(s, t);
      (pc.Sending? || pc.InPlace? || pc.Releasing?) && pc.key == key
    case Slot(i) => i < |s.queue| && s.queue[i] == key
    case Worker => !s.worker.Waiting? && s.worker.key == key
  }

  /** A thread holds the lock exactly while it is inside the locked section. */
  ghost predicate LockHeld(s: State) {
    forall t: ThreadId :: PcOf(s, t).Locked? || PcOf(s, t).Missed? <==> s.lock == Some(t)
  }

  /** Every key in flight is held exactly once, and only keys in flight are held. */
  ghost predicate Owned(s: State) {
    && (forall h: Holder, key: Key :: Holds(s, h, key) ==> key in s.inFlight)
    && (forall h: Holder, g: Holder, key: Key :: Holds(s, h, key) && Holds(s, g, key) ==> h == g)
    && (forall key <- s.inFlight :: exists h: Holder :: Holds(s, h, key))
  }

  ghost predicate Inv(s: State) {
    LockHeld(s) && Owned(s)
  }

  /** `s'` differs from `s` only in where thread `t` is, and that holds the same. */
  lemma ThreadMoves(s: State, s': State, t: ThreadId)
    requires Owned(s)
    requires s'.inFlight == s.inFlight && s'.queue == s.queue && s'.worker == s.worker
    requires forall u: ThreadId :: u != t ==> PcOf(s', u) == PcOf(s, u)
    requires forall key: Key :: Holds(s', Thread(t), key) <==> Holds(s, Thread(t), key)
    ensures Owned(s')
  {
    forall h: Holder, key: Key
      ensures Holds(s', h, key) <==> Holds(s, h, key)
    {
    }
    SameHolders(s, s');
  }

  lemma SameHolders(s: State, s': State)
    requires Owned(s) && s'.inFlight == s.inFlight
    requires forall h: Holder, key: Key :: Holds(s', h, key) <==> Holds(s, h, key)
    ensures Owned(s')
  {
    forall key | key in s'.inFlight
      ensures exists h: Holder :: Holds(s', h, key)
    {
      var h: Holder :| Holds(s, h, key);
      assert Holds(s', h, key);
    }
  }

  /** A key put in flight is held by whoever put it there. */
  lemma HolderAdded(s: State, s': State, holder: Holder, key: Key)
    requires Owned(s) && key !in s.inFlight && s'.inFlight == s.inFlight + {key}
    requires forall h: Holder, k: Key :: Holds(s', h, k) <==> Holds(s, h, k) || (h == holder && k == key)
    requires forall k: Key :: !Holds(s, holder, k)
    ensures Owned(s')
  {
    forall k | k in s'.inFlight
      ensures exists h: Holder :: Holds(s', h, k)
    {
      if k == key {
        assert Holds(s', holder, key);
      } else {
        var h: Holder :| Holds(s, h, k);
        assert Holds(s', h, k);
      }
    }
  }

  /** A key taken out of flight was held by whoever takes it out. */
  lemma HolderRemoved(s: State, s': State, holder: Holder, key: Key)
    requires Owned(s) && Holds(s, holder, key) && s'.inFlight == s.inFlight - {key}
    requires forall h: Holder, k: Key :: Holds(s', h, k) <==> Holds(s, h, k) && h != holder
    requires forall k: Key :: Holds(s, holder, k) ==> k == key
    ensures Owned(s')
  {
    forall k | k in s'.inFlight
      ensures exists h: Holder :: Holds(s', h, k)
    {
      var h: Holder :| Holds(s, h, k);
      assert h == holder ==> k == key;
      assert Holds(s', h, k);
    }
  }

  /** A key passed on is held by the one it was passed to. */
  lemma HolderMoved(s: State, s': State, from: Holder, to: Holder, key: Key)
    requires Owned(s) && Holds(s, from, key) && s'.inFlight == s.inFlight && from != to
    requires forall h: Holder, k: Key :: Holds(s', h, k) <==> (Holds(s, h, k) && h != from) || (h == to && k == key)
    requires forall k: Key :: !Holds(s, to, k)
    ensures Owned(s')
  {
    forall k | k in s'.inFlight
      ensures exists h: Holder :: Holds(s', h, k)
    {
      var h: Holder :| Holds(s, h, k);
      if k == key {
        assert Holds(s', to, key);
      } else {
        assert h != from;
        assert Holds(s', h, k);
      }
    }
  }

  lemma LockKept(s: State, a: Action)
    requires LockHeld(s) && Enabled(s, a)
    ensures LockHeld(Do(s, a))
  {
    var s' := Do(s, a);
    forall t: ThreadId
      ensures PcOf(s', t).Locked? || PcOf(s', t).Missed? <==> s'.lock == Some(t)
    {
      assert PcOf(s, t).Locked? || PcOf(s, t).Missed? <==> s.lock == Some(t);
    }
  }

  lemma InsertOwned(s: State, t: ThreadId)
    requires Inv(s) && Enabled(s, InsertLocked(t))
    ensures Owned(Do(s, InsertLocked(t)))
  {
    var s' := Do(s, InsertLocked(t));
    var key := PcOf(s, t).key;
    if key in s.inFlight {
      ThreadMoves(s, s', t);
    } else {
      HolderAdded(s, s', Thread(t), key);
    }
  }

  lemma SendOwned(s: State, t: ThreadId)
    requires Inv(s) && Enabled(s, Send(t))
    ensures Owned(Do(s, Send(t)))
  {
    var s' := Do(s, Send(t));
    var key := PcOf(s, t).key;
    if s.open {
      HolderMoved(s, s', Thread(t), Slot(|s.queue|), key);
    } else {
      ThreadMoves(s, s', t);
    }
  }

  lemma ReleaseOwned(s: State, t: ThreadId)
    requires Inv(s) && Enabled(s, Release(t))
    ensures Owned(Do(s, Release(t)))
  {
    HolderRemoved(s, Do(s, Release(t)), Thread(t), PcOf(s, t).key);
  }

  lemma FinishOwned(s: State)
    requires Inv(s) && Enabled(s, Finish)
    ensures Owned(Do(s, Finish))
  {
    HolderRemoved(s, Do(s, Finish), Worker, s.worker.key);
  }

  /** Where a holder's key was before the worker took the head of the queue. */
  function BeforeTake(h: Holder): Holder {
    match h
    case Thread(_) => h
    case Slot(i) => Slot(i + 1)
    case Worker => Slot(0)
  }

  lemma TakeOwned(s: State)
    requires Inv(s) && Enabled(s, Take)
    ensures Owned(Do(s, Take))
  {
    var s' := Do(s, Take);
    forall h: Holder, key: Key
      ensures Holds(s', h, key) <==> Holds(s, BeforeTake(h), key)
    {
    }
    forall key | key in s'.inFlight
      ensures exists h: Holder :: Holds(s', h, key)
    {
      var h: Holder :| Holds(s, h, key);
      var after := match h
                   case Slot(i) => if i == 0 then Worker else Slot(i - 1)
                   case _ => h;
      assert BeforeTake(after) == h;
      assert Holds(s', after, key);
    }
    forall h: Holder, g: Holder, key: Key | Holds(s', h, key) && Holds(s', g, key)
      ensures h == g
    {
      assert BeforeTake(h) == BeforeTake(g);
    }
  }

  lemma StepOwned(s: State, a: Action)
    requires Inv(s) && Enabled(s, a)
    ensures Owned(Do(s, a))
  {
    hide Owned, LockHeld;
    var s' := Do(s, a);
    match a
    case InsertLocked(t) => InsertOwned(s, t);
    case Send(t) => SendOwned(s, t);
    case Release(t) => ReleaseOwned(s, t);
    case Take => TakeOwned(s);
    case Finish => FinishOwned(s);
    case Begin(t, _, _) => ThreadMoves(s, s', t);
    case LookUp(t) => ThreadMoves(s, s', t);
    case Lock(t) => ThreadMoves(s, s', t);
    case CheckLocked(t) => ThreadMoves(s, s', t);
    case ScanInPlace(t) => ThreadMoves(s, s', t);
    case CacheRead(t) => ThreadMoves(s, s', t);
    case Change(_, _) => SameHolders(s, s');
    case ScanStep => SameHolders(s, s');
  }

  lemma {:induction false} Maintained(first: State, actions: seq<Action>, s: State)
    requires Reaches(first, actions, s) && Inv(first)
    ensures Inv(s)
    decreases |actions|
  {
    if |actions| > 0 {
      LockKept(first, actions[0]);
      StepOwned(first, actions[0]);
      Maintained(Do(first, actions[0]), actions[1..], s);
    }
  }

  predicate NoDuplicates(queue: seq<Key>) {
    forall i, j :: 0 <= i < j < |queue| ==> queue[i] != queue[j]
  }

  /** In every run of any threads, each key in flight is held by exactly one of
      a thread about to send it or scanning it in place, a queue slot and the
      worker; so no key is queued twice. */
  lemma KeysInFlightAreOwned(files: map<Key, Stamp>, cache: map<Key, Stamp>, open: bool,
                             actions: seq<Action>, s: State)
    requires Reaches(Init(files, cache, open), actions, s)
    ensures Owned(s) && NoDuplicates(s.queue)
  {
    Maintained(Init(files, cache, open), actions, s);
    forall i, j | 0 <= i < j < |s.queue|
      ensures s.queue[i] != s.queue[j]
    {
      if s.queue[i] == s.queue[j] {
        assert Holds(s, Slot(i), s.queue[i]) && Holds(s, Slot(j), s.queue[i]);
      }
    }
  }

  // ---------------------------------------------------------------- an unchanged file

  predicate ScanUnder(scan: ScanPc, stamp: Stamp) {
    scan.Stat? || scan.stamp == stamp
  }

  /** Every thread working on `key` has seen it under `stamp`. */
  predicate SeenUnder(pc: Pc, key: Key, stamp: Stamp) {
    pc.Idle? || pc.key != key || pc.Releasing?
    || (if pc.InPlace? then ScanUnder(pc.scan, stamp) else pc.stamp == stamp)
  }

  /** The file at `key` has stayed readable under `stamp`. */
  ghost predicate Unchanged(s: State, key: Key, stamp: Stamp) {
    && key in s.files && s.files[key] == stamp
    && (forall t: ThreadId :: SeenUnder(PcOf(s, t), key, stamp))
    && (!s.worker.Waiting? && s.worker.key == key && s.worker.Scanning? ==> ScanUnder(s.worker.scan, stamp))
  }

  /** A scan is cached before its key leaves the set. */
  ghost predicate CachedFirst(s: State, key: Key, stamp: Stamp) {
    && (forall t: ThreadId :: PcOf(s, t) == Releasing(key) ==> Cached(s, key, stamp))
    && (s.worker == Finishing(key) ==> Cached(s, key, stamp))
  }

  /** The key has been put in flight at most once, and not without being still
      in flight or cached; a thread that has missed it in the cache under the
      lock would be the first to put it in flight, unless it is in flight. */
  ghost predicate Once(s: State, key: Key, stamp: Stamp) {
    && Enqueued(s, key) <= 1
    && (Enqueued(s, key) > 0 ==> key in s.inFlight || Cached(s, key, stamp))
    && (forall t: ThreadId ::
        PcOf(s, t).Missed? && PcOf(s, t).key == key ==> Enqueued(s, key) == 0 || key in s.inFlight)
  }

  ghost predicate UnchangedInv(s: State, key: Key, stamp: Stamp) {
    Inv(s) && Unchanged(s, key, stamp) && CachedFirst(s, key, stamp) && Once(s, key, stamp)
  }

  predicate LeavesAlone(a: Action, key: Key) {
    a.Change? ==> a.key != key
  }

  lemma StepUnchanged(s: State, a: Action, key: Key, stamp: Stamp)
    requires Unchanged(s, key, stamp) && Enabled(s, a) && LeavesAlone(a, key)
    ensures Unchanged(Do(s, a), key, stamp)
  {
    var s' := Do(s, a);
    forall t: ThreadId
      ensures SeenUnder(PcOf(s', t), key, stamp)
    {
      assert SeenUnder(PcOf(s, t), key, stamp);
    }
  }

  lemma StepCachedFirst(s: State, a: Action, key: Key, stamp: Stamp)
    requires Unchanged(s, key, stamp) && CachedFirst(s, key, stamp) && Enabled(s, a) && LeavesAlone(a, key)
    ensures CachedFirst(Do(s, a), key, stamp)
    ensures Cached(s, key, stamp) ==> Cached(Do(s, a), key, stamp)
  {
    var s' := Do(s, a);
    StepUnchanged(s, a, key, stamp);
    forall t: ThreadId | PcOf(s', t) == Releasing(key)
      ensures Cached(s', key, stamp)
    {
      assert SeenUnder(PcOf(s, t), key, stamp);
    }
  }

  lemma StepOnce(s: State, a: Action, key: Key, stamp: Stamp)
    requires UnchangedInv(s, key, stamp) && Enabled(s, a) && LeavesAlone(a, key)
    ensures Once(Do(s, a), key, stamp)
  {
    var s' := Do(s, a);
    StepCachedFirst(s, a, key, stamp);
    forall t: ThreadId | PcOf(s', t).Missed? && PcOf(s', t).key == key
      ensures Enqueued(s', key) == 0 || key in s'.inFlight
    {
      assert SeenUnder(PcOf(s, t), key, stamp);
      assert s'.lock == Some(t) by {
        LockKept(s, a);
      }
    }
  }

  lemma {:induction false} UnchangedMaintained(first: State, actions: seq<Action>, s: State, key: Key, stamp: Stamp)
    requires Reaches(first, actions, s) && UnchangedInv(first, key, stamp)
    requires forall a <- actions :: LeavesAlone(a, key)
    ensures UnchangedInv(s, key, stamp)
    decreases |actions|
  {
    if |actions| > 0 {
      LockKept(first, actions[0]);
      StepOwned(first, actions[0]);
      StepUnchanged(first, actions[0], key, stamp);
      StepCachedFirst(first, actions[0], key, stamp);
      StepOnce(first, actions[0], key, stamp);
      UnchangedMaintained(Do(first, actions[0]), actions[1..], s, key, stamp);
    }
  }

  /** While a file stays readable and unchanged it is put in flight at most
      once, however the threads interleave and whatever happens to other files. */
  lemma EnqueuedAtMostOnce(files: map<Key, Stamp>, cache: map<Key, Stamp>, open: bool,
                           actions: seq<Action>, s: State, key: Key)
    requires Reaches(Init(files, cache, open), actions, s)
    requires key in files && forall a <- actions :: LeavesAlone(a, key)
    ensures Enqueued(s, key) <= 1
    ensures Enqueued(s, key) == 1 ==> key in s.inFlight || Cached(s, key, files[key])
  {
    UnchangedMaintained(Init(files, cache, open), actions, s, key, files[key]);
  }
}
