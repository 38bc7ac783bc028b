/** The bounded set of sampled topics: what requests and expiry do to it, and what
    that means over whole runs. */
module TopicRequests {
  import opened Spans

  /** When each topic was last requested; none for a built-in topic. */
  type Requests = map<string, Option<int>>

  // ---------------------------------------------------------------- the order of eviction

  predicate KeyLess(a: string, b: string) {
    |b| > 0 && (|a| == 0 || a[0] < b[0] || (a[0] == b[0] && KeyLess(a[1..], b[1..])))
  }

  lemma {:induction false} KeyLessTransitive(a: string, b: string, c: string)
    requires KeyLess(a, b) && KeyLess(b, c)
    ensures KeyLess(a, c)
  {
    if |a| > 0 && a[0] == b[0] && b[0] == c[0] {
      KeyLessTransitive(a[1..], b[1..], c[1..]);
    }
  }

  lemma {:induction false} KeyLessTotal(a: string, b: string)
    ensures a == b || KeyLess(a, b) || KeyLess(b, a)
    ensures !(KeyLess(a, b) && KeyLess(b, a)) && !(a == b && KeyLess(a, b))
  {
    if |a| > 0 && |b| > 0 {
      KeyLessTotal(a[1..], b[1..]);
      assert a == [a[0]] + a[1..] && b == [b[0]] + b[1..];
    }
  }

  /** By time of the last request, then by key. */
  predicate Before(t: int, a: string, u: int, b: string) {
    t < u || (t == u && KeyLess(a, b))
  }

  predicate Evictable(topics: Requests, key: string) {
    key in topics && topics[key].Some?
  }

  /** The least recently requested topic. */
  predicate OldestIs(topics: Requests, key: string) {
    && Evictable(topics, key)
    && forall other <- topics ::
        topics[other].Some? && other != key ==> Before(topics[key].value, key, topics[other].value, other)
  }

  lemma OldestOnce(topics: Requests, a: string, b: string)
    requires OldestIs(topics, a) && OldestIs(topics, b)
    ensures a == b
  {
    KeyLessTotal(a, b);
  }

  /** The oldest of the requested topics among `keys`. */
  ghost predicate OldestAmong(topics: Requests, keys: set<string>, key: string) {
    && key in keys && Evictable(topics, key)
    && forall other <- keys ::
        Evictable(topics, other) && other != key ==> Before(topics[key].value, key, topics[other].value, other)
  }

  /** One more candidate: the older of it and the oldest so far. */
  lemma OldestMore(topics: Requests, keys: set<string>, key: string, more: string)
    requires OldestAmong(topics, keys, key) && Evictable(topics, more) && more !in keys
    ensures OldestAmong(topics, keys + {more},
              if Before(topics[more].value, more, topics[key].value, key) then more else key)
  {
    KeyLessTotal(key, more);
    if Before(topics[more].value, more, topics[key].value, key) {
      forall other | other in keys && Evictable(topics, other)
        ensures Before(topics[more].value, more, topics[other].value, other)
      {
        if other != key && KeyLess(more, key) && KeyLess(key, other) {
          KeyLessTransitive(more, key, other);
        }
      }
    }
  }

  // ---------------------------------------------------------------- the operations

  function Since(now: int, t: int): nat {
    if now >= t then now - t else 0
  }

  /** A request: a known topic is touched; a new one is added, in place of the
      oldest requested one when the set is full, unless only built-ins are in it. */
  ghost function Requested(topics: Requests, key: string, now: int, limit: nat): Requests {
    if key in topics then
      (if topics[key].Some? then topics[key := Some(Max(topics[key].value, now))] else topics)
    else if |topics| < limit then topics[key := Some(now)]
    else if k :| OldestIs(topics, k) then (topics - {k})[key := Some(now)]
    else topics
  }

  function Expired(topics: Requests, now: int, expiry: nat): Requests {
    map k | k in topics && (topics[k] == None || Since(now, topics[k].value) <= expiry) :: topics[k]
  }

  ghost function RequestedAll(topics: Requests, keys: seq<string>, now: int, limit: nat): Requests {
    if |keys| == 0 then topics
    else Requested(RequestedAll(topics, keys[..|keys| - 1], now, limit), keys[|keys| - 1], now, limit)
  }

  /** A call that changes the set: a status request, or the start of a cycle. */
  datatype Call =
    | Status(now: int, keys: seq<string>)
    | Cycle(now: int)

  datatype Config = Config(expiry: nat, limit: nat)

  ghost function After(topics: Requests, call: Call, config: Config): Requests {
    var kept := Expired(topics, call.now, config.expiry);
    match call
    case Status(now, keys) => RequestedAll(kept, keys, now, config.limit)
    case Cycle(_) => kept
  }

  function Start(builtin: set<string>): Requests {
    map k | k in builtin :: None
  }

  ghost function Run(builtin: set<string>, calls: seq<Call>, config: Config): Requests {
    if |calls| == 0 then Start(builtin)
    else After(Run(builtin, calls[..|calls| - 1], config), calls[|calls| - 1], config)
  }

  // ---------------------------------------------------------------- the set stays bounded and keeps its built-ins

  /** The built-in topics, which have no request time, and requested ones, which do. */
  ghost predicate Shape(topics: Requests, builtin: set<string>) {
    && (forall b <- builtin :: b in topics && topics[b] == None)
    && (forall k <- topics :: topics[k] == None ==> k in builtin)
  }

  ghost predicate Bounded(topics: Requests, builtin: set<string>, limit: nat) {
    |topics| <= Max(limit, |builtin|)
  }

  /** A set with a requested topic has an oldest one. */
  lemma {:induction false} OldestExists(topics: Requests, keys: set<string>, some: string) returns (key: string)
    requires some in keys && Evictable(topics, some)
    ensures OldestAmong(topics, keys, key)
    decreases keys
  {
    var left := keys - {some};
    if more :| more in left && Evictable(topics, more) {
      assert more !in keys - {more};
      var before := OldestExists(topics, keys - {more}, some);
      OldestMore(topics, keys - {more}, before, more);
      assert keys - {more} + {more} == keys;
      key := if Before(topics[more].value, more, topics[before].value, before) then more else before;
    } else {
      key := some;
    }
  }

  /** What a request for a new topic does to a full set: the oldest goes. */
  lemma EvictsOldest(topics: Requests, key: string, now: int, limit: nat, some: string) returns (oldest: string)
    requires key !in topics && |topics| >= limit && Evictable(topics, some)
    ensures OldestIs(topics, oldest) && Evictable(topics, oldest)
    ensures Requested(topics, key, now, limit) == (topics - {oldest})[key := Some(now)]
  {
    oldest := OldestExists(topics, topics.Keys, some);
    assert OldestIs(topics, oldest);
    var k :| OldestIs(topics, k) && Requested(topics, key, now, limit) == (topics - {k})[key := Some(now)];
    OldestOnce(topics, oldest, k);
  }

  lemma OldestTaken(topics: Requests, oldest: string)
    requires OldestIs(topics, oldest)
    ensures Evictable(topics, oldest) && forall k :: OldestIs(topics, k) ==> k == oldest
  {
    forall k | OldestIs(topics, k)
      ensures k == oldest
    {
      OldestOnce(topics, oldest, k);
    }
  }

  lemma KeepsSize(topics: Requests, out: string, key: string, value: Option<int>)
    requires out in topics && key !in topics
    ensures |(topics - {out})[key := value]| == |topics|
  {
    var kept := topics - {out};
    assert kept.Keys == topics.Keys - {out};
    assert |kept.Keys| == |topics.Keys| - 1;
    assert kept[key := value].Keys == kept.Keys + {key};
  }

  lemma NoneOldest(topics: Requests)
    requires forall k :: !Evictable(topics, k)
    ensures forall k :: !OldestIs(topics, k)
  {
  }

  lemma EvictionKeeps(topics: Requests, builtin: set<string>, out: string, key: string, now: int, limit: nat)
    requires Shape(topics, builtin) && Bounded(topics, builtin, limit) && Evictable(topics, out) && key !in topics
    ensures var after := (topics - {out})[key := Some(now)];
            Shape(after, builtin) && Bounded(after, builtin, limit)
  {
    KeepsSize(topics, out, key, Some(now));
  }

  lemma FullKeeps(topics: Requests, builtin: set<string>, key: string, now: int, limit: nat)
    requires Shape(topics, builtin) && Bounded(topics, builtin, limit) && key !in topics && |topics| >= limit
    ensures var after := Requested(topics, key, now, limit);
            Shape(after, builtin) && Bounded(after, builtin, limit)
  {
    hide Shape, Bounded, Evictable, OldestIs;
    if some :| Evictable(topics, some) {
      var oldest := EvictsOldest(topics, key, now, limit, some);
      EvictionKeeps(topics, builtin, oldest, key, now, limit);
    } else {
      NoneOldest(topics);
    }
  }

  lemma RequestKeeps(topics: Requests, builtin: set<string>, key: string, now: int, limit: nat)
    requires Shape(topics, builtin) && Bounded(topics, builtin, limit)
    ensures var after := Requested(topics, key, now, limit);
            Shape(after, builtin) && Bounded(after, builtin, limit)
  {
    hide OldestIs;
    if key in topics {
      if topics[key].Some? {
        assert topics[key := Some(Max(topics[key].value, now))].Keys == topics.Keys;
      }
    } else if |topics| < limit {
      assert topics[key := Some(now)].Keys == topics.Keys + {key};
    } else {
      FullKeeps(topics, builtin, key, now, limit);
    }
  }

  lemma {:induction false} RequestsKeep(topics: Requests, builtin: set<string>, keys: seq<string>, now: int, limit: nat)
    requires Shape(topics, builtin) && Bounded(topics, builtin, limit)
    ensures var after := RequestedAll(topics, keys, now, limit);
            Shape(after, builtin) && Bounded(after, builtin, limit)
  {
    hide Requested;
    if |keys| > 0 {
      var n := |keys| - 1;
      RequestsKeep(topics, builtin, keys[..n], now, limit);
      RequestKeeps(RequestedAll(topics, keys[..n], now, limit), builtin, keys[n], now, limit);
    }
  }

  lemma ExpiryKeeps(topics: Requests, builtin: set<string>, now: int, config: Config)
    requires Shape(topics, builtin) && Bounded(topics, builtin, config.limit)
    ensures var after := Expired(topics, now, config.expiry);
            Shape(after, builtin) && Bounded(after, builtin, config.limit)
  {
    var after := Expired(topics, now, config.expiry);
    assert after.Keys <= topics.Keys;
    SubsetSize(after.Keys, topics.Keys);
  }

  lemma SubsetSize<T>(a: set<T>, b: set<T>)
    requires a <= b
    ensures |a| <= |b| && (a != b ==> |a| < |b|)
  {
    if x :| x in a {
      SubsetSize(a - {x}, b - {x});
    }
  }

  /** Over any run, the set holds at most `limit` topics, or the built-ins if those
      are more, and every built-in topic stays in it. */
  lemma {:induction false} SetStaysBounded(builtin: set<string>, calls: seq<Call>, config: Config)
    ensures var topics := Run(builtin, calls, config);
            && |topics| <= Max(config.limit, |builtin|)
            && (forall b <- builtin :: b in topics && topics[b] == None)
            && (forall k <- topics :: topics[k] == None ==> k in builtin)
  {
    hide RequestedAll, Expired;
    if |calls| == 0 {
      assert Start(builtin).Keys == builtin;
    } else {
      var n := |calls| - 1;
      SetStaysBounded(builtin, calls[..n], config);
      var before, call := Run(builtin, calls[..n], config), calls[n];
      ExpiryKeeps(before, builtin, call.now, config);
      if call.Status? {
        RequestsKeep(Expired(before, call.now, config.expiry), builtin, call.keys, call.now, config.limit);
      }
    }
  }

  /** In every run the start of a cycle drops exactly the topics that are not built in and
      were last requested longer ago than the expiry, and changes nothing of the others. */
  lemma CycleExpires(builtin: set<string>, calls: seq<Call>, now: int, config: Config, key: string)
    ensures var before, after := Run(builtin, calls, config), Run(builtin, calls + [Cycle(now)], config);
            && (key in after <==>
                key in before && (key in builtin || (before[key].Some? && before[key].value + config.expiry >= now)))
            && (key in after ==> after[key] == before[key])
  {
    SetStaysBounded(builtin, calls, config);
    assert (calls + [Cycle(now)])[..|calls|] == calls;
  }

  /** A status request drops the same topics before it adds any: one that it does not name is
      there afterwards only if it is built in or was requested within the expiry, and its
      request time is as it was. */
  lemma StatusExpires(builtin: set<string>, calls: seq<Call>, now: int, keys: seq<string>, config: Config, key: string)
    requires key !in keys
    ensures var before, after := Run(builtin, calls, config), Run(builtin, calls + [Status(now, keys)], config);
            key in after ==>
              && key in before && after[key] == before[key]
              && (key in builtin || (before[key].Some? && before[key].value + config.expiry >= now))
  {
    SetStaysBounded(builtin, calls, config);
    assert (calls + [Status(now, keys)])[..|calls|] == calls;
    UnnamedUntouched(Expired(Run(builtin, calls, config), now, config.expiry), keys, now, config.limit, key);
  }

  lemma {:induction false} UnnamedUntouched(topics: Requests, keys: seq<string>, now: int, limit: nat, key: string)
    requires key !in keys
    ensures var after := RequestedAll(topics, keys, now, limit);
            key in after ==> key in topics && after[key] == topics[key]
  {
    if |keys| > 0 {
      UnnamedUntouched(topics, keys[..|keys| - 1], now, limit, key);
    }
  }

  /** A request for a topic in the set keeps the later of the two times, leaves a built-in
      topic without one, and touches no other topic. */
  lemma KnownIsTouched(topics: Requests, key: string, now: int, limit: nat, other: string)
    requires key in topics
    ensures var after := Requested(topics, key, now, limit);
            && after.Keys == topics.Keys
            && (topics[key] == None ==> after[key] == None)
            && (topics[key].Some? ==>
                && after[key].Some? && after[key].value >= now && after[key].value >= topics[key].value
                && (after[key].value == now || after[key].value == topics[key].value))
            && (other in topics && other != key ==> after[other] == topics[other])
  {
  }

  // ---------------------------------------------------------------- a batch of requests

  function KeySet(keys: seq<string>): set<string> {
    set k | k in keys
  }

  /** Whether there is room for every topic of a batch beside the built-in ones. */
  ghost predicate Fits(builtin: set<string>, keys: seq<string>, limit: nat) {
    FitsBeside(builtin, keys, {}, limit)
  }

  /** Whether there is room for every topic of a batch beside the built-in ones and some others. */
  ghost predicate FitsBeside(builtin: set<string>, keys: seq<string>, others: set<string>, limit: nat) {
    KeySet(keys) - builtin == {} || |builtin| + |others + KeySet(keys) - builtin| <= limit
  }

  /** The topics requested at `now` or later. */
  function LateTopics(topics: Requests, now: int): set<string> {
    set k | k in topics && topics[k].Some? && topics[k].value >= now
  }

  /** Every request so far was made before `now`. */
  ghost predicate AllBefore(topics: Requests, now: int) {
    forall k <- topics :: topics[k].Some? ==> topics[k].value < now
  }

  /** During a batch at `now`: the topics requested so far, and those requested no earlier
      before the batch, are there, and all others are older. */
  ghost predicate InBatch(topics: Requests, done: set<string>, now: int) {
    && (forall k <- done :: k in topics && (topics[k].Some? ==> topics[k].value >= now))
    && (forall k <- topics :: topics[k].Some? ==> topics[k].value < now || k in done)
  }

  /** A full set with room for the batch holds a topic requested before it. */
  lemma Spare(topics: Requests, builtin: set<string>, done: set<string>, key: string, now: int, limit: nat)
    returns (k: string)
    requires Shape(topics, builtin) && InBatch(topics, done, now)
    requires key !in topics && |topics| >= limit
    requires |builtin| + |done + {key} - builtin| <= limit
    ensures k in topics && topics[k].Some? && topics[k].value < now
  {
    var extra := done - builtin;
    assert key !in builtin && key !in done;
    assert done + {key} - builtin == extra + {key};
    assert |extra + {key}| == |extra| + 1;
    if forall k <- topics :: k in builtin || k in extra {
      assert topics.Keys <= builtin + extra;
      SubsetSize(topics.Keys, builtin + extra);
      UnionSize(builtin, extra);
      assert false;
    }
    k :| k in topics && k !in builtin && k !in extra;
  }

  lemma UnionSize<T>(a: set<T>, b: set<T>)
    ensures |a + b| <= |a| + |b|
  {
    assert |a + b| == |a| + |b| - |a * b|;
  }

  lemma BatchStep(topics: Requests, builtin: set<string>, done: set<string>, key: string, now: int, limit: nat)
    requires Shape(topics, builtin) && InBatch(topics, done, now)
    requires key in builtin || |builtin| + |done + {key} - builtin| <= limit
    ensures InBatch(Requested(topics, key, now, limit), done + {key}, now)
  {
    hide OldestIs, Before;
    if key !in topics && |topics| >= limit {
      var spare := Spare(topics, builtin, done, key, now, limit);
      var oldest := EvictsOldest(topics, key, now, limit, spare);
      OldestNoLater(topics, oldest, spare);
    }
  }

  lemma OldestNoLater(topics: Requests, oldest: string, key: string)
    requires OldestIs(topics, oldest) && Evictable(topics, key)
    ensures topics[oldest].value <= topics[key].value
  {
  }

  lemma {:induction false} BatchKeeps(topics: Requests, builtin: set<string>, keys: seq<string>, n: nat, now: int,
                                      limit: nat)
    requires n <= |keys| && Shape(topics, builtin) && Bounded(topics, builtin, limit)
    requires FitsBeside(builtin, keys, LateTopics(topics, now), limit)
    ensures InBatch(RequestedAll(topics, keys[..n], now, limit), LateTopics(topics, now) + KeySet(keys[..n]), now)
  {
    hide Requested, Bounded, Shape;
    var late := LateTopics(topics, now);
    if n > 0 {
      var done, key := late + KeySet(keys[..n - 1]), keys[n - 1];
      BatchKeeps(topics, builtin, keys, n - 1, now, limit);
      RequestsKeep(topics, builtin, keys[..n - 1], now, limit);
      assert keys[..n][..n - 1] == keys[..n - 1];
      assert done + {key} == late + KeySet(keys[..n]) by {
        assert keys[..n] == keys[..n - 1] + [key];
      }
      if key !in builtin {
        assert key in KeySet(keys) - builtin;
        SubsetSize(done + {key} - builtin, late + KeySet(keys) - builtin);
      }
      BatchStep(RequestedAll(topics, keys[..n - 1], now, limit), builtin, done, key, now, limit);
    }
  }

  /** More topics than there is room for cannot all be in the set. */
  lemma TooMany(topics: Requests, builtin: set<string>, keys: seq<string>, limit: nat)
    requires Shape(topics, builtin) && Bounded(topics, builtin, limit)
    requires forall k <- keys :: k in topics
    ensures Fits(builtin, keys, limit)
  {
    var extra := KeySet(keys) - builtin;
    assert builtin + extra <= topics.Keys;
    SubsetSize(builtin + extra, topics.Keys);
    assert |builtin + extra| == |builtin| + |extra| - |builtin * extra|;
    assert builtin * extra == {};
  }

  lemma BatchPresent(topics: Requests, builtin: set<string>, keys: seq<string>, now: int, limit: nat)
    requires Shape(topics, builtin) && Bounded(topics, builtin, limit)
    ensures FitsBeside(builtin, keys, LateTopics(topics, now), limit) ==> forall k <- keys ::
            k in RequestedAll(topics, keys, now, limit)
    ensures (forall k <- keys :: k in RequestedAll(topics, keys, now, limit)) ==> Fits(builtin, keys, limit)
  {
    hide Shape, Bounded, Fits, FitsBeside;
    var after := RequestedAll(topics, keys, now, limit);
    if FitsBeside(builtin, keys, LateTopics(topics, now), limit) {
      BatchKeeps(topics, builtin, keys, |keys|, now, limit);
      assert keys[..|keys|] == keys;
      assert forall k <- keys :: k in KeySet(keys);
    }
    if forall k <- keys :: k in after {
      RequestsKeep(topics, builtin, keys, now, limit);
      TooMany(after, builtin, keys, limit);
    }
  }

  // ---------------------------------------------------------------- over whole runs

  /** Every status request of the run was made before `now`. */
  predicate StatusesBefore(calls: seq<Call>, now: int) {
    forall i :: 0 <= i < |calls| && calls[i].Status? ==> calls[i].now < now
  }

  lemma RequestTimes(topics: Requests, key: string, at: int, now: int, limit: nat)
    requires AllBefore(topics, now) && at < now
    ensures AllBefore(Requested(topics, key, at, limit), now)
  {
  }

  lemma {:induction false} BatchTimes(topics: Requests, keys: seq<string>, at: int, now: int, limit: nat)
    requires AllBefore(topics, now) && at < now
    ensures AllBefore(RequestedAll(topics, keys, at, limit), now)
  {
    hide Requested, AllBefore;
    if |keys| > 0 {
      var n := |keys| - 1;
      BatchTimes(topics, keys[..n], at, now, limit);
      RequestTimes(RequestedAll(topics, keys[..n], at, limit), keys[n], at, now, limit);
    }
  }

  lemma {:induction false} RunTimes(builtin: set<string>, calls: seq<Call>, now: int, config: Config)
    requires StatusesBefore(calls, now)
    ensures AllBefore(Run(builtin, calls, config), now)
  {
    hide RequestedAll;
    if |calls| > 0 {
      var n := |calls| - 1;
      RunTimes(builtin, calls[..n], now, config);
      if calls[n].Status? {
        BatchTimes(Expired(Run(builtin, calls[..n], config), calls[n].now, config.expiry), calls[n].keys,
            calls[n].now, now, config.limit);
      }
    }
  }

  /** A status request leaves every topic it names in the set if there is room for them
      beside the built-in topics and those requested at the same time or later, and only
      if there is room beside the built-in ones. After all earlier requests the two are one. */
  lemma BatchAllPresent(builtin: set<string>, calls: seq<Call>, now: int, keys: seq<string>, config: Config)
    ensures var before, after := Run(builtin, calls, config), Run(builtin, calls + [Status(now, keys)], config);
            && (FitsBeside(builtin, keys, LateTopics(before, now), config.limit) ==> forall k <- keys :: k in after)
            && ((forall k <- keys :: k in after) ==> Fits(builtin, keys, config.limit))
    ensures StatusesBefore(calls, now) ==>
              ((forall k <- keys :: k in Run(builtin, calls + [Status(now, keys)], config))
              <==> Fits(builtin, keys, config.limit))
  {
    hide RequestedAll, Expired, Shape, Bounded;
    var before := Run(builtin, calls, config);
    SetStaysBounded(builtin, calls, config);
    ShapeOfRun(builtin, calls, config);
    ExpiryKeeps(before, builtin, now, config);
    assert (calls + [Status(now, keys)])[..|calls|] == calls;
    var left := Expired(before, now, config.expiry);
    LateStay(before, now, config.expiry);
    BatchPresent(left, builtin, keys, now, config.limit);
    if StatusesBefore(calls, now) {
      RunTimes(builtin, calls, now, config);
      assert LateTopics(before, now) == {};
    }
  }

  lemma ShapeOfRun(builtin: set<string>, calls: seq<Call>, config: Config)
    ensures Shape(Run(builtin, calls, config), builtin) && Bounded(Run(builtin, calls, config), builtin, config.limit)
  {
    hide Run;
    SetStaysBounded(builtin, calls, config);
  }

  /** Nothing requested at `now` or later has expired. */
  lemma LateStay(topics: Requests, now: int, expiry: nat)
    ensures LateTopics(Expired(topics, now, expiry), now) == LateTopics(topics, now)
  {
  }

  const MAX_TOPICS_PER_REQUEST := 16
  const MAX_SAMPLED_TOPICS := 64
  const BUILTIN_COUNT := 17

  lemma {:induction false} KeySetSize(keys: seq<string>)
    ensures |KeySet(keys)| <= |keys|
  {
    if |keys| > 0 {
      var n := |keys| - 1;
      KeySetSize(keys[..n]);
      assert keys == keys[..n] + [keys[n]];
      assert KeySet(keys) == KeySet(keys[..n]) + {keys[n]};
    }
  }

  /** With the limits the program ships with, a request of at most 16 topics made after
      all earlier ones has room, and any with at most 31 topics requested no earlier. */
  lemma AcceptedRequestsFit(builtin: set<string>, calls: seq<Call>, now: int, keys: seq<string>, config: Config)
    requires |builtin| == BUILTIN_COUNT && config.limit == MAX_SAMPLED_TOPICS && |keys| <= MAX_TOPICS_PER_REQUEST
    requires StatusesBefore(calls, now) || |LateTopics(Run(builtin, calls, config), now)| <= 31
    ensures forall k <- keys :: k in Run(builtin, calls + [Status(now, keys)], config)
  {
    hide Run, StatusesBefore;
    BatchAllPresent(builtin, calls, now, keys, config);
    KeySetSize(keys);
    var late := LateTopics(Run(builtin, calls, config), now);
    UnionSize(late, KeySet(keys));
    SubsetSize(late + KeySet(keys) - builtin, late + KeySet(keys));
    SubsetSize({} + KeySet(keys) - builtin, KeySet(keys));
  }

  lemma EvictedIs(topics: Requests, key: string, now: int, limit: nat, oldest: string)
    requires key !in topics && |topics| >= limit && OldestIs(topics, oldest)
    ensures Requested(topics, key, now, limit) == (topics - {oldest})[key := Some(now)]
  {
    var k := EvictsOldest(topics, key, now, limit, oldest);
    OldestOnce(topics, k, oldest);
  }

  /** Later requests can push out what a batch with an earlier time adds: two topics were
      requested at 5, and of two requested at 4 the second takes the place of the first. */
  lemma LateRequestsWin(expiry: nat)
    ensures var config := Config(expiry, 2);
            var run := Run({}, [Status(5, ["a", "b"]), Status(4, ["c", "d"])], config);
            Fits({}, ["c", "d"], config.limit) && "c" !in run && "d" in run
  {
    hide OldestIs, Requested, Run, RequestedAll;
    var config := Config(expiry, 2);
    var first: Requests := map["a" := Some(5), "b" := Some(5)];
    assert [] + [Status(5, ["a", "b"])] == [Status(5, ["a", "b"])];
    assert [Status(5, ["a", "b"])] + [Status(4, ["c", "d"])] == [Status(5, ["a", "b"]), Status(4, ["c", "d"])];
    NothingRun({}, config);
    assert Expired(Start({}), 5, expiry) == map[];
    TwoRequested([], "a", "b", 5, config, map[]);
    Filling();
    assert Expired(first, 4, expiry) == first;
    TwoRequested([Status(5, ["a", "b"])], "c", "d", 4, config, first);
    Evicting();
    var keys, none: set<string> := ["c", "d"], {};
    KeySetSize(keys);
    assert none + KeySet(keys) - none == KeySet(keys) && |none| == 0;
  }

  lemma TwoRequested(calls: seq<Call>, a: string, b: string, now: int, config: Config, before: Requests)
    requires Expired(Run({}, calls, config), now, config.expiry) == before
    ensures Run({}, calls + [Status(now, [a, b])], config)
         == Requested(Requested(before, a, now, config.limit), b, now, config.limit)
  {
    hide Requested, RequestedAll, Expired;
    assert (calls + [Status(now, [a, b])])[..|calls|] == calls;
    AddsTwo(a, b, now, config.limit, before);
  }

  lemma NothingRun(builtin: set<string>, config: Config)
    ensures Run(builtin, [], config) == Start(builtin)
  {
  }

  lemma AddsTwo(a: string, b: string, now: int, limit: nat, topics: Requests)
    ensures RequestedAll(topics, [a, b], now, limit) == Requested(Requested(topics, a, now, limit), b, now, limit)
  {
    hide Requested;
    assert [a, b][..1] == [a] && [a][..0] == [];
    assert RequestedAll(topics, [a], now, limit) == Requested(RequestedAll(topics, [], now, limit), a, now, limit);
  }

  lemma Filling()
    ensures Requested(Requested(map[], "a", 5, 2), "b", 5, 2) == map["a" := Some(5), "b" := Some(5)]
  {
    var one: Requests := map["a" := Some(5)];
    assert Requested(map[], "a", 5, 2) == one;
    assert |one| == 1;
  }

  lemma Evicting()
    ensures var first: Requests := map["a" := Some(5), "b" := Some(5)];
            Requested(Requested(first, "c", 4, 2), "d", 4, 2) == map["b" := Some(5), "d" := Some(4)]
  {
    var first: Requests := map["a" := Some(5), "b" := Some(5)];
    assert KeyLess("a", "b");
    EvictedIs(first, "c", 4, 2, "a");
    var second: Requests := map["b" := Some(5), "c" := Some(4)];
    assert (first - {"a"})["c" := Some(4)] == second;
    EvictedIs(second, "d", 4, 2, "c");
    assert (second - {"c"})["d" := Some(4)] == map["b" := Some(5), "d" := Some(4)];
  }
}
