/** The sampled topics and their observers, updated in place. */
module TopicSets {
  import opened Spans
  import opened TopicRequests

  // ---------------------------------------------------------------- observers

  /** The last sighting of one topic, and who is watching it. */
  class TopicObserver {
    const epoch: int
    /** One more than the age after `epoch` of the last sighting; 0 before the first. */
    var nanosPlusOne: nat
    var bridges: nat
    var sampled: bool

    constructor (epoch: int)
      ensures this.epoch == epoch && LastSeen() == None && bridges == 0 && !sampled
    {
      this.epoch := epoch;
      nanosPlusOne, bridges, sampled := 0, 0, false;
    }

    function LastSeen(): Option<int>
      reads this
    {
      if nanosPlusOne == 0 then None else Some(epoch + nanosPlusOne - 1)
    }

    /** A time as it is kept: one before `epoch` as `epoch`, and one later than 64 bits
        of nanoseconds can tell as the last that they can. */
    function Kept(at: int): int {
      Min(Max(at, epoch), epoch + U64_MAX - 1)
    }

    /** Records a sighting: the latest one counts. */
    method Observe(at: int)
      modifies `nanosPlusOne
      ensures LastSeen() == Some(if old(LastSeen()).Some? then Max(old(LastSeen()).value, Kept(at)) else Kept(at))
      ensures old(nanosPlusOne) <= U64_MAX ==> nanosPlusOne <= U64_MAX
    {
      var nanos := Min(Clamp(at - epoch), U64_MAX - 1);
      nanosPlusOne := Max(nanosPlusOne, nanos + 1);
    }

    /** Notes that the topic has been sampled. */
    method MarkSampled()
      modifies `sampled
      ensures sampled
    {
      sampled := true;
    }
  }

  /** Samples one topic: what arrives while the subscription is open is recorded, and the
      topic is then covered; neither happens when the subscription cannot be declared. */
  method SampleOne(observer: TopicObserver, declared: bool, arrivals: seq<int>)
    modifies observer`nanosPlusOne, observer`sampled
    ensures !declared ==> observer.LastSeen() == old(observer.LastSeen()) && observer.sampled == old(observer.sampled)
    ensures declared ==> observer.sampled && LatestOf(observer, old(observer.LastSeen()), arrivals, observer.LastSeen())
  {
    if declared {
      for i := 0 to |arrivals|
        invariant LatestOf(observer, old(observer.LastSeen()), arrivals[..i], observer.LastSeen())
      {
        observer.Observe(arrivals[i]);
        assert arrivals[..i + 1] == arrivals[..i] + [arrivals[i]];
      }
      assert arrivals[..|arrivals|] == arrivals;
      observer.MarkSampled();
    }
  }

  /** `seen` is the latest of the sighting before and the arrivals. */
  predicate LatestOf(observer: TopicObserver, before: Option<int>, arrivals: seq<int>, seen: Option<int>) {
    && (before.Some? ==> seen.Some? && before.value <= seen.value)
    && (forall at <- arrivals :: seen.Some? && observer.Kept(at) <= seen.value)
    && (seen == before || exists at <- arrivals :: seen == Some(observer.Kept(at)))
  }

  /** Kept by a bridge as long as it serves a topic of the set. */
  class BridgeObserver {
    const observer: TopicObserver

    constructor (observer: TopicObserver)
      modifies observer`bridges
      ensures this.observer == observer && observer.bridges == old(observer.bridges) + 1
    {
      this.observer := observer;
      new;
      observer.bridges := observer.bridges + 1;
    }

    method Drop()
      requires observer.bridges > 0
      modifies observer`bridges
      ensures observer.bridges == old(observer.bridges) - 1
    {
      observer.bridges := observer.bridges - 1;
    }
  }

  // ---------------------------------------------------------------- the set

  /** An observer as it is created. */
  predicate Unseen(observer: TopicObserver)
    reads observer
  {
    observer.LastSeen() == None && observer.bridges == 0 && !observer.sampled
  }

  datatype Entry = Entry(observer: TopicObserver, lastRequested: Option<int>)

  /** Whether one of the first `n` requests of a batch adds its topic. */
  ghost predicate AddsOne(topics: Requests, keys: seq<string>, n: nat, now: int, limit: nat)
    requires n <= |keys|
  {
    exists i :: 0 <= i < n && keys[i] !in RequestedAll(topics, keys[..i], now, limit)
                && keys[i] in RequestedAll(topics, keys[..i + 1], now, limit)
  }

  lemma FirstAmong(topics: Requests, done: set<string>, key: string)
    requires Evictable(topics, key) && forall k <- done :: !Evictable(topics, k)
    ensures OldestAmong(topics, done + {key}, key)
  {
  }

  lemma AmongMore(topics: Requests, done: set<string>, oldest: string, key: string)
    requires OldestAmong(topics, done, oldest) && !Evictable(topics, key)
    ensures OldestAmong(topics, done + {key}, oldest)
  {
  }

  lemma OldestOfAll(topics: Requests, oldest: string)
    requires OldestAmong(topics, topics.Keys, oldest)
    ensures OldestIs(topics, oldest)
  {
  }

  class TopicSet {
    var entries: map<string, Entry>
    const epoch: int
    const config: Config

    function Contents(): (topics: Requests)
      reads `entries
      ensures topics.Keys == entries.Keys
    {
      map k | k in entries :: entries[k].lastRequested
    }

    constructor (builtin: seq<string>, epoch: int, config: Config)
      ensures Contents() == Start(KeySet(builtin)) && this.config == config && this.epoch == epoch
      ensures Distinct()
      ensures forall k <- entries :: fresh(entries[k].observer) && Unseen(entries[k].observer)
    {
      this.epoch, this.config, entries := epoch, config, map[];
      new;
      for i := 0 to |builtin|
        invariant Contents() == Start(KeySet(builtin[..i]))
        invariant Distinct()
        invariant forall k <- entries :: fresh(entries[k].observer) && Unseen(entries[k].observer)
      {
        var observer := new TopicObserver(epoch);
        entries := entries[builtin[i] := Entry(observer, None)];
        assert builtin[..i + 1] == builtin[..i] + [builtin[i]];
        assert KeySet(builtin[..i + 1]) == KeySet(builtin[..i]) + {builtin[i]};
      }
      assert builtin[..|builtin|] == builtin;
    }

    /** No two topics share an observer. */
    ghost predicate Distinct()
      reads `entries
    {
      forall j, k :: j in entries && k in entries && j != k ==> entries[j].observer != entries[k].observer
    }

    /** The topics known before that are still there keep their observers. */
    twostate predicate KeepsObservers()
      reads `entries
    {
      forall k <- entries :: k in old(entries) ==> entries[k].observer == old(entries)[k].observer
    }

    /** The least recently requested topic, by time and then by key. */
    method Oldest() returns (oldest: Option<string>)
      ensures oldest == None <==> forall k :: !Evictable(Contents(), k)
      ensures oldest.Some? ==> OldestIs(Contents(), oldest.value)
    {
      hide OldestAmong, Before;
      oldest := None;
      ghost var topics := Contents();
      var left := entries.Keys;
      assert entries.Keys - left == {};
      while left != {}
        invariant left <= entries.Keys
        invariant oldest == None ==> forall k <- entries.Keys - left :: !Evictable(topics, k)
        invariant oldest.Some? ==>
                  OldestAmong(topics, entries.Keys - left, oldest.value) && Evictable(topics, oldest.value)
        decreases left
      {
        var key :| key in left;
        ghost var done := entries.Keys - left;
        left := left - {key};
        assert entries.Keys - left == done + {key};
        var time := entries[key].lastRequested;
        if time.Some? {
          if oldest == None {
            FirstAmong(topics, done, key);
            oldest := Some(key);
          } else {
            OldestMore(topics, done, oldest.value, key);
            if Before(time.value, key, entries[oldest.value].lastRequested.value, oldest.value) {
              oldest := Some(key);
            }
          }
        } else if oldest.Some? {
          AmongMore(topics, done, oldest.value, key);
        }
      }
      assert entries.Keys - left == topics.Keys;
      if oldest.Some? {
        OldestOfAll(topics, oldest.value);
        assert Evictable(Contents(), oldest.value);
      } else {
        assert forall k :: Evictable(topics, k) ==> k in topics.Keys;
      }
    }

    /** Records a client's request: adds the topic if it is not in the set, evicting
        the least recently requested one when the set is full. */
    method Request(key: string, now: int) returns (added: bool)
      modifies `entries
      ensures Contents() == Requested(old(Contents()), key, now, config.limit)
      ensures added <==> key !in old(entries) && key in entries
      ensures added ==> fresh(entries[key].observer) && Unseen(entries[key].observer)
      ensures KeepsObservers() && (old(Distinct()) ==> Distinct())
    {
      hide OldestIs, Evictable;
      ghost var before := Contents();
      if key in entries {
        var entry := entries[key];
        if entry.lastRequested.Some? {
          entries := entries[key := entry.(lastRequested := Some(Max(entry.lastRequested.value, now)))];
        }
        assert Contents() == Requested(before, key, now, config.limit);
        return false;
      }
      if |entries| >= config.limit {
        assert |before.Keys| == |entries.Keys|;
        var oldest := Oldest();
        if oldest == None {
          NoneOldest(before);
          return false;
        }
        OldestTaken(before, oldest.value);
        entries := entries - {oldest.value};
        assert Contents() == before - {oldest.value};
      }
      assert |before.Keys| == |old(entries).Keys|;
      var observer := new TopicObserver(epoch);
      ghost var kept := Contents();
      entries := entries[key := Entry(observer, Some(now))];
      assert Contents() == kept[key := Some(now)];
      added := true;
    }

    /** Takes out every requested topic whose last request is longer ago than the expiry. */
    method Expire(now: int)
      modifies `entries
      ensures Contents() == Expired(old(Contents()), now, config.expiry)
      ensures KeepsObservers() && (old(Distinct()) ==> Distinct())
    {
      entries := map k | k in entries
        && (entries[k].lastRequested == None || Since(now, entries[k].lastRequested.value) <= config.expiry) ::
            entries[k];
    }

    /** What a status request does to the set; `added` says whether to wake the sampler. */
    method RequestBatch(keys: seq<string>, now: int) returns (added: bool)
      modifies `entries
      ensures Contents() == After(old(Contents()), Status(now, keys), config)
      ensures added <==> AddsOne(Expired(old(Contents()), now, config.expiry), keys, |keys|, now, config.limit)
      ensures old(Distinct()) ==> Distinct()
    {
      hide Requested, Expired;
      Expire(now);
      ghost var kept := Contents();
      added := false;
      for i := 0 to |keys|
        invariant Contents() == RequestedAll(kept, keys[..i], now, config.limit)
        invariant added <==> AddsOne(kept, keys, i, now, config.limit)
        invariant old(Distinct()) ==> Distinct()
      {
        assert keys[..i + 1][..i] == keys[..i];
        var more := Request(keys[i], now);
        added := added || more;
      }
      assert keys[..|keys|] == keys;
    }

    /** The topics that no bridge serves; with `pendingOnly`, only those not sampled so far. */
    method Due(pendingOnly: bool) returns (due: map<string, TopicObserver>)
      ensures forall k :: k in due <==>
                k in entries && entries[k].observer.bridges == 0 && (pendingOnly ==> !entries[k].observer.sampled)
      ensures forall k <- due :: due[k] == entries[k].observer
    {
      due := map k | k in entries && !(entries[k].observer.bridges > 0)
                     && (!pendingOnly || !entries[k].observer.sampled) :: entries[k].observer;
    }

    /** A bridge handle for a sampled topic, which takes it out of those to sample. */
    method Bridge(key: string) returns (bridge: Option<BridgeObserver>)
      modifies set k | k in entries :: entries[k].observer`bridges
      ensures bridge.Some? <==> key in entries
      ensures bridge.Some? ==> bridge.value.observer == entries[key].observer
      ensures bridge.Some? ==> entries[key].observer.bridges == old(entries[key].observer.bridges) + 1
      ensures forall k <- entries :: entries[k].observer != (if key in entries then entries[key].observer else null)
                ==> entries[k].observer.bridges == old(entries[k].observer.bridges)
    {
      if key !in entries {
        return None;
      }
      var handle := new BridgeObserver(entries[key].observer);
      bridge := Some(handle);
    }
  }
}
