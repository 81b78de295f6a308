/** The calls of the two-level authentication cache as one process executes them. Each call, executed
    without interruption, is a run of the protocol in `AuthCache`; calls that interleave are runs of it too,
    but are not written as calls here. */
module AuthCacheCalls {
  import opened AuthCache
  import opened L1
  import opened Outcomes

  type Entries = map<Key, Entry<Stamped>>

  /** The second level after a write that may not have worked. */
  function Written(entries: Entries, works: bool, key: Key, e: Entry<Stamped>): Entries {
    if works then entries[key := e] else entries
  }

  /** The second level. A call that does not work raises and changes nothing. */
  class SharedCache {
    var entries: Entries

    constructor ()
      ensures entries == map[]
    {
      entries := map[];
    }

    method Get(key: Key, now: real) returns (r: Option<Stamped>)
      ensures r == if key in entries && now < entries[key].expiresAt then Some(entries[key].value) else None
    {
      r := if key in entries && now < entries[key].expiresAt then Some(entries[key].value) else None;
    }

    method SetEx(key: Key, ttl: nat, value: Stamped, now: real, works: bool)
      modifies this
      ensures entries == Written(old(entries), works, key, Entry(value, now + ttl as real))
    {
      if works {
        entries := entries[key := Entry(value, now + ttl as real)];
      }
    }

    method Delete(key: Key)
      modifies this
      ensures entries == old(entries) - {key}
    {
      entries := entries - {key};
    }
  }

  /** The readings of the clock at the places where a call looks at it. */
  datatype Times = Times(first: real, second: real, third: real) {
    ghost predicate Fit(cfg: Config, w: World) {
      w.now <= first <= second <= third && second <= first + cfg.lag && third <= second + cfg.lag
    }
  }

  /** Waiting until a time and taking a step then. */
  ghost function Then(steps: seq<Step>, t: real, s: Step): seq<Step> {
    steps + [Tick(t)] + [s]
  }

  lemma RunThen(cfg: Config, w: World, steps: seq<Step>, t: real, s: Step)
    requires IsRun(cfg, w, steps) && After(cfg, w, steps).now <= t
    requires Enabled(cfg, After(cfg, w, steps).(now := t), s)
    ensures IsRun(cfg, w, Then(steps, t, s))
    ensures After(cfg, w, Then(steps, t, s)) == Next(cfg, After(cfg, w, steps).(now := t), s)
    ensures IsAnsweredLast(cfg, w, Then(steps, t, s), Returned(cfg, After(cfg, w, steps).(now := t), s))
  {
    RunNext(cfg, w, steps, Tick(t));
    RunNext(cfg, w, steps + [Tick(t)], s);
    assert Then(steps, t, s)[..|steps| + 1] == steps + [Tick(t)];
  }

  /** The last step of the run gives this answer. */
  ghost predicate IsAnsweredLast(cfg: Config, w: World, steps: seq<Step>, answer: Option<(Key, Stamped)>) {
    && steps != [] && IsRun(cfg, w, steps[..|steps| - 1])
    && Returned(cfg, After(cfg, w, steps[..|steps| - 1]), steps[|steps| - 1]) == answer
  }

  lemma LookupRun(cfg: Config, w: World, p: Proc, k: Key, first: real)
    requires w.now <= first
    ensures var all := Then([], first, LookupL1(p, k));
      var hit := LocalStore(w, p).Lookup(k, first);
      && IsRun(cfg, w, all)
      && After(cfg, w, all).now == first && After(cfg, w, all).l2 == w.l2
      && LocalStore(After(cfg, w, all), p) == LocalStore(w, p).AfterLookup(k, first)
      && IsAnsweredLast(cfg, w, all, if hit.Some? then Some((k, hit.value)) else None)
  {
    RunThen(cfg, w, [], first, LookupL1(p, k));
  }

  lemma NothingStored(cfg: Config, s: Store<Stamped>, k: Key, value: Stamped, now: real)
    requires cfg.maxEntries < 1
    ensures StoreLocally(cfg, s, k, value, now) == s
  {
  }

  /** What is kept is found again, for as long as it lives. */
  lemma StoredIsFound(cfg: Config, s: Store<Stamped>, k: Key, value: Stamped, now: real)
    requires cfg.maxEntries >= 1
    ensures StoreLocally(cfg, s, k, value, now) == s.AfterSet(cfg.maxEntries, k, Entry(value, now + cfg.ttl(k) as real))
    ensures StoreLocally(cfg, s, k, value, now).Lookup(k, now) == Some(value)
  {
  }

  /** Looking a key up in the second level and putting what was found into the first. */
  lemma FetchRun(cfg: Config, w: World, steps: seq<Step>, p: Proc, k: Key, value: Stamped, second: real, third: real)
    requires IsRun(cfg, w, steps) && After(cfg, w, steps).now <= second <= third <= second + cfg.lag
    requires var v := After(cfg, w, steps); k in v.l2 && second < v.l2[k].expiresAt && v.l2[k].value == value
    ensures var v := After(cfg, w, steps);
      var all := Then(Then(steps, second, FetchL2(p, k)), third, FillL1(Read(p, k, value, second)));
      && IsRun(cfg, w, all)
      && After(cfg, w, all).l2 == v.l2
      && LocalStore(After(cfg, w, all), p) == StoreLocally(cfg, LocalStore(v, p), k, value, third)
      && IsAnsweredLast(cfg, w, all, if cfg.maxEntries < 1 then None else Some((k, value)))
  {
    var v := After(cfg, w, steps);
    RunThen(cfg, w, steps, second, FetchL2(p, k));
    RunThen(cfg, w, Then(steps, second, FetchL2(p, k)), third, FillL1(Read(p, k, value, second)));
  }

  lemma NothingWritten(entries: Entries, key: Key, e: Entry<Stamped>)
    ensures Written(entries, false, key, e) == entries
  {
  }

  lemma RefusedRun(cfg: Config, w: World, p: Proc, k: Key, data: Data, first: real)
    requires cfg.maxEntries < 1 && w.now <= first
    ensures var all := Then([], first, SetL1(p, k, data));
      && IsRun(cfg, w, all) && After(cfg, w, all) == w.(now := first)
      && LocalStore(After(cfg, w, all), p) == LocalStore(w, p)
  {
    RunThen(cfg, w, [], first, SetL1(p, k, data));
  }

  /** Putting a value into the first level and sending it to the second. */
  lemma SendRun(cfg: Config, w: World, p: Proc, k: Key, data: Data, first: real, second: real, accepted: bool)
    requires cfg.maxEntries >= 1 && w.now <= first <= second <= first + cfg.lag
    ensures var value := Stamped(Stripped(data), first);
      var all := Then(Then([], first, SetL1(p, k, data)), second, SetL2(Write(k, value), accepted));
      && IsRun(cfg, w, all)
      && LocalStore(After(cfg, w, all), p) == StoreLocally(cfg, LocalStore(w, p), k, value, first)
      && After(cfg, w, all).l2 == Written(w.l2, accepted, k, Entry(value, second + cfg.ttl(k) as real))
      && After(cfg, w, all).writes <= w.writes
  {
    var value := Stamped(Stripped(data), first);
    RunThen(cfg, w, [], first, SetL1(p, k, data));
    RunThen(cfg, w, Then([], first, SetL1(p, k, data)), second, SetL2(Write(k, value), accepted));
  }

  class CacheOfProcess {
    const cfg: Config
    const l1: L1Cache<Stamped>
    /** Nothing if Redis is not available; the cache then works with its first level only. */
    const redis: SharedCache?
    ghost const proc: Proc

    constructor (cfg: Config, redis: SharedCache?, ghost proc: Proc)
      ensures this.cfg == cfg && this.redis == redis && this.proc == proc
      ensures Valid() && fresh(l1) && l1.store == Store(map[], 0)
    {
      this.cfg, this.redis, this.proc := cfg, redis, proc;
      l1 := new L1Cache(cfg.maxEntries);
    }

    ghost predicate Valid()
      reads this, l1
    {
      l1.Valid() && l1.maxEntries == cfg.maxEntries
    }

    /** The world holds this process's first level and the shared second level. */
    ghost predicate Mirrors(w: World)
      reads this, l1, redis
    {
      LocalStore(w, proc) == l1.store && (redis != null ==> w.l2 == redis.entries)
    }

    /** The second level has a live entry, and the first has room for it. */
    ghost predicate CanFetch(key: Key, times: Times, works: bool)
      reads this, redis
    {
      && redis != null && works && cfg.maxEntries >= 1
      && key in redis.entries && times.second < redis.entries[key].expiresAt
    }

    /** What a read answers: a live entry of the first level, or else a live entry of the second if that
        works and the first has room. */
    ghost predicate IsRead(slots: map<Key, Slot<Stamped>>, shared: SharedCache?, key: Key, times: Times, works: bool, r: Option<Data>)
      reads shared
    {
      if key in slots && times.first <= slots[key].entry.expiresAt then r == Some(slots[key].entry.value.data)
      else if shared != null && works && cfg.maxEntries >= 1 && key in shared.entries && times.second < shared.entries[key].expiresAt
      then r == Some(shared.entries[key].value.data)
      else r == None
    }

    /** The part of a read after the first level missed. */
    method FetchProfile(key: Key, times: Times, works: bool, ghost w: World, ghost begun: seq<Step>)
      returns (r: Option<Data>, ghost steps: seq<Step>)
      requires Valid() && IsRun(cfg, w, begun) && Mirrors(After(cfg, w, begun)) && times.Fit(cfg, After(cfg, w, begun))
      modifies l1
      ensures Valid() && IsRun(cfg, w, steps) && Mirrors(After(cfg, w, steps))
      ensures r.Some? <==> CanFetch(key, times, works)
      ensures r.Some? ==> IsAnsweredLast(cfg, w, steps, Some((key, redis.entries[key].value))) && redis.entries[key].value.data == r.value
    {
      hide IsRun, After, Then, IsAnsweredLast, LocalStore, StoreLocally;
      r, steps := None, begun;
      if redis == null || !works {
        return;
      }
      var raw := redis.Get(key, times.second);
      if raw.None? {
        return;
      }
      FetchRun(cfg, w, begun, proc, key, raw.value, times.second, times.third);
      steps := Then(Then(begun, times.second, FetchL2(proc, key)), times.third, FillL1(Read(proc, key, raw.value, times.second)));
      if cfg.maxEntries >= 1 {
        StoredIsFound(cfg, l1.store, key, raw.value, times.third);
      } else {
        NothingStored(cfg, l1.store, key, raw.value, times.third);
      }
      ghost var evicted;
      var ok;
      ok, evicted := l1.Set(key, raw.value, cfg.ttl(key), times.third);
      r := if ok then Some(raw.value.data) else None;
    }

    /** A first-level hit, or else what the second level has, which is then kept in the first. */
    method GetProfile(key: Key, times: Times, works: bool, ghost w: World) returns (r: Option<Data>, ghost steps: seq<Step>)
      requires Valid() && Mirrors(w) && times.Fit(cfg, w)
      modifies l1
      ensures Valid() && IsRun(cfg, w, steps) && Mirrors(After(cfg, w, steps))
      ensures r.Some? <==> old(l1.store).Lookup(key, times.first).Some? || CanFetch(key, times, works)
      ensures r.Some? ==>
                exists stamped :: IsAnsweredLast(cfg, w, steps, Some((key, stamped))) && stamped.data == r.value
      ensures IsRead(old(l1.store).slots, redis, key, times, works, r)
    {
      hide IsRun, After, Then, IsAnsweredLast, LocalStore, StoreLocally;
      LookupRun(cfg, w, proc, key, times.first);
      steps := Then([], times.first, LookupL1(proc, key));
      var hit := l1.Get(key, times.first);
      if hit.Some? {
        return Some(hit.value.data), steps;
      }
      r, steps := FetchProfile(key, times, works, w, steps);
    }

    /** Sends what the first level already keeps to the second. */
    method WriteShared(key: Key, profile: Data, times: Times, works: bool, ghost w: World) returns (ghost steps: seq<Step>)
      requires Valid() && cfg.maxEntries >= 1 && times.Fit(cfg, w) && (redis != null ==> w.l2 == redis.entries)
      requires l1.store == StoreLocally(cfg, LocalStore(w, proc), key, Stamped(Stripped(profile), times.first), times.first)
      modifies redis
      ensures IsRun(cfg, w, steps) && Mirrors(After(cfg, w, steps)) && After(cfg, w, steps).writes <= w.writes
      ensures redis != null ==> redis.entries == Written(w.l2, works, key, EntryOf(key, profile, times))
    {
      hide IsRun, After, Then, LocalStore, StoreLocally, Written;
      var value := Stamped(Stripped(profile), times.first);
      SendRun(cfg, w, proc, key, profile, times.first, times.second, redis != null && works);
      steps := Then(Then([], times.first, SetL1(proc, key, profile)), times.second, SetL2(Write(key, value), redis != null && works));
      if redis != null {
        redis.SetEx(key, cfg.ttl(key), value, times.second, works);
      } else {
        NothingWritten(w.l2, key, EntryOf(key, profile, times));
      }
    }

    function EntryOf(key: Key, profile: Data, times: Times): Entry<Stamped> {
      Entry(Stamped(Stripped(profile), times.first), times.second + cfg.ttl(key) as real)
    }

    /** The entry holds the profile without its password hash until this time. */
    ghost predicate Keeps(e: Entry<Stamped>, profile: Data, expiresAt: real) {
      e.expiresAt == expiresAt && e.value.data == profile - {"hashed_password"}
    }

    lemma EntryKeeps(entries: Entries, key: Key, profile: Data, times: Times)
      ensures var after := Written(entries, true, key, EntryOf(key, profile, times));
        key in after && Keeps(after[key], profile, times.second + cfg.ttl(key) as real)
      ensures Keeps(Entry(Stamped(Stripped(profile), times.first), times.first + cfg.ttl(key) as real), profile,
                    times.first + cfg.ttl(key) as real)
    {
    }

    /** Keeps the profile in the first level, if that has room. */
    method SetLocally(key: Key, profile: Data, now: real) returns (ok: bool)
      requires Valid()
      modifies l1
      ensures Valid() && ok == (cfg.maxEntries >= 1)
      ensures l1.store == if ok then StoreLocally(cfg, old(l1.store), key, Stamped(Stripped(profile), now), now) else old(l1.store)
      ensures ok ==> l1.store.Lookup(key, now) == Some(Stamped(Stripped(profile), now))
      ensures ok ==> key in l1.store.slots && Keeps(l1.store.slots[key].entry, profile, now + cfg.ttl(key) as real)
    {
      var value := Stamped(Stripped(profile), now);
      if cfg.maxEntries >= 1 {
        StoredIsFound(cfg, l1.store, key, value, now);
      }
      ghost var evicted;
      ok, evicted := l1.Set(key, value, cfg.ttl(key), now);
    }

    /** Keeps the profile without its password hash in both levels. A first level without room for any
        entry refuses it, and the call fails before it reaches the second. */
    method SetProfile(key: Key, profile: Data, times: Times, works: bool, ghost w: World) returns (ok: bool, ghost steps: seq<Step>)
      requires Valid() && Mirrors(w) && times.Fit(cfg, w)
      modifies l1, redis
      ensures Valid() && IsRun(cfg, w, steps) && Mirrors(After(cfg, w, steps)) && After(cfg, w, steps).writes <= w.writes
      ensures ok == (cfg.maxEntries >= 1)
      ensures ok ==> l1.store.Lookup(key, times.first) == Some(Stamped(Stripped(profile), times.first))
      ensures redis != null ==> redis.entries == if ok then Written(w.l2, works, key, EntryOf(key, profile, times)) else w.l2
      ensures ok ==> key in l1.store.slots && Keeps(l1.store.slots[key].entry, profile, times.first + cfg.ttl(key) as real)
      ensures ok && redis != null && works ==>
                key in redis.entries && Keeps(redis.entries[key], profile, times.second + cfg.ttl(key) as real)
    {
      hide IsRun, After, Then, LocalStore, StoreLocally, Written, EntryOf, Keeps, Stripped;
      EntryKeeps(w.l2, key, profile, times);
      ok := SetLocally(key, profile, times.first);
      if ok {
        steps := WriteShared(key, profile, times, works, w);
      } else {
        RefusedRun(cfg, w, proc, key, profile, times.first);
        steps := Then([], times.first, SetL1(proc, key, profile));
      }
    }

    /** Drops the key from this process's first level and, if the second level works, from there. */
    method InvalidateProfile(key: Key, times: Times, works: bool, ghost w: World) returns (ghost steps: seq<Step>)
      requires Valid() && Mirrors(w) && times.Fit(cfg, w)
      modifies l1, redis
      ensures Valid() && IsRun(cfg, w, steps) && Mirrors(After(cfg, w, steps))
      ensures l1.store.slots == old(l1.store).slots - {key}
      ensures redis != null ==> redis.entries == if works then old(redis.entries) - {key} else old(redis.entries)
    {
      RunThen(cfg, w, [], times.first, DeleteL1(proc, key));
      steps := Then([], times.first, DeleteL1(proc, key));
      hide IsRun, After, Then;
      l1.Delete(key);
      if redis == null {
        return;
      }
      RunThen(cfg, w, steps, times.second, DeleteL2(key, works));
      steps := Then(steps, times.second, DeleteL2(key, works));
      if works {
        redis.Delete(key);
      }
    }
  }
}
