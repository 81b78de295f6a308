/** The process-local cache: a bounded dictionary in insertion order, with a time to live. */
module L1 {
  import opened Outcomes

  type Key = string

  datatype Entry<V> = Entry(value: V, expiresAt: real)

  /** An entry and the number of the insertion that brought its key into the dictionary. */
  datatype Slot<V> = Slot(entry: Entry<V>, number: nat)

  /** A dictionary that iterates in insertion order: by the numbers of its slots. Setting a present
      key keeps its place. */
  datatype Store<V> = Store(slots: map<Key, Slot<V>>, insertions: nat) {
    ghost predicate Valid() {
      && (forall k :: k in slots ==> slots[k].number < insertions)
      && (forall j, k :: j in slots && k in slots && slots[j].number == slots[k].number ==> j == k)
    }

    function Put(key: Key, e: Entry<V>): Store<V> {
      if key in slots then this.(slots := slots[key := Slot(e, slots[key].number)])
      else Store(slots[key := Slot(e, insertions)], insertions + 1)
    }

    function Remove(key: Key): Store<V> {
      this.(slots := slots - {key})
    }

    /** A hit needs an entry that is not past its expiry. */
    function Lookup(key: Key, now: real): Option<V> {
      if key in slots && now <= slots[key].entry.expiresAt then Some(slots[key].entry.value) else None
    }

    /** A lookup drops the entry it finds expired. */
    function AfterLookup(key: Key, now: real): Store<V> {
      if key in slots && now > slots[key].entry.expiresAt then Remove(key) else this
    }

    /** The first key in iteration order. */
    predicate IsOldest(key: Key) {
      key in slots && forall k :: k in slots ==> slots[key].number <= slots[k].number
    }

    /** Whether inserting the key makes room by evicting the oldest key. */
    predicate Evicts(maxEntries: int, key: Key) {
      |slots| >= maxEntries && key !in slots
    }

    ghost function AfterSet(maxEntries: int, key: Key, e: Entry<V>): Store<V> {
      if Evicts(maxEntries, key) && exists k :: IsOldest(k) then
        var oldest :| IsOldest(oldest);
        Remove(oldest).Put(key, e)
      else Put(key, e)
    }
  }

  lemma {:induction false} OldestExists<V>(s: Store<V>) returns (key: Key)
    requires s.slots != map[]
    ensures s.IsOldest(key)
    decreases s.slots.Keys
  {
    key :| key in s.slots;
    var rest := s.Remove(key);
    if rest.slots != map[] {
      var other := OldestExists(rest);
      assert forall k :: k in s.slots ==> k == key || k in rest.slots;
      if s.slots[other].number < s.slots[key].number {
        key := other;
      }
    } else {
      assert forall k :: k in s.slots ==> k == key || k in rest.slots;
    }
  }

  /** Distinct insertion numbers in an interval are at most as many as the interval is long. */
  lemma {:induction false} SlotsFit<V>(s: Store<V>, lo: nat, hi: nat)
    requires s.Valid() && lo <= hi && forall k :: k in s.slots ==> lo <= s.slots[k].number < hi
    ensures |s.slots| <= hi - lo
    decreases hi
  {
    if lo == hi {
      assert s.slots.Keys == {};
    } else if k :| k in s.slots && s.slots[k].number == hi - 1 {
      SlotsFit(s.Remove(k), lo, hi - 1);
      assert s.slots.Keys == s.Remove(k).slots.Keys + {k};
    } else {
      SlotsFit(s, lo, hi - 1);
    }
  }

  lemma RemoveSize<V>(s: Store<V>, key: Key)
    ensures |s.Remove(key).slots| == |s.slots| - if key in s.slots then 1 else 0
  {
    var rest := s.Remove(key).slots;
    if key in s.slots {
      assert rest[key := s.slots[key]] == s.slots;
    } else {
      assert rest == s.slots;
    }
  }

  lemma PutSize<V>(s: Store<V>, key: Key, e: Entry<V>)
    ensures |s.Put(key, e).slots| == |s.slots| + if key in s.slots then 0 else 1
  {
  }

  /** Setting a key moves no present key in the iteration order; a new key comes last. */
  lemma PutKeepsOrder<V>(s: Store<V>, key: Key, e: Entry<V>)
    requires s.Valid()
    ensures forall k :: k in s.slots ==> k in s.Put(key, e).slots && s.Put(key, e).slots[k].number == s.slots[k].number
    ensures key !in s.slots ==> forall k :: k in s.slots ==> s.slots[k].number < s.Put(key, e).slots[key].number
  {
  }

  /** So the key to evict next stays the same. */
  lemma PutKeepsOldest<V>(s: Store<V>, key: Key, e: Entry<V>, k: Key)
    requires s.Valid() && s.slots != map[]
    ensures s.Put(key, e).IsOldest(k) <==> s.IsOldest(k)
  {
    var t := s.Put(key, e);
    PutKeepsOrder(s, key, e);
    var oldest := OldestExists(s);
    if t.IsOldest(k) {
      assert t.slots[k].number <= t.slots[oldest].number;
    }
  }

  class L1Cache<V> {
    const maxEntries: int
    var store: Store<V>
    /** What an unbounded cache holds: the last entry set for each key and not deleted since. */
    ghost var latest: map<Key, Entry<V>>

    constructor (maxEntries: int)
      ensures this.maxEntries == maxEntries && store == Store(map[], 0) && latest == map[]
      ensures Valid()
    {
      this.maxEntries := maxEntries;
      store, latest := Store(map[], 0), map[];
    }

    ghost predicate IsCurrent()
      reads this
    {
      store.Valid() && forall k :: k in store.slots ==> k in latest && latest[k] == store.slots[k].entry
    }

    ghost predicate Valid()
      reads this
    {
      IsCurrent() && |store.slots| <= if maxEntries < 0 then 0 else maxEntries
    }

    /** A hit is the value last set for the key, neither deleted nor expired. */
    method Get(key: Key, now: real) returns (r: Option<V>)
      requires Valid()
      modifies this`store
      ensures Valid()
      ensures r == old(store).Lookup(key, now) && store == old(store).AfterLookup(key, now)
      ensures r.Some? ==> key in latest && r.value == latest[key].value && now <= latest[key].expiresAt
      ensures r.Some? <==> key in old(store).slots && now <= old(store).slots[key].entry.expiresAt
      ensures store.insertions == old(store).insertions
      ensures store.slots == if key in old(store).slots && r.None? then old(store).slots - {key} else old(store).slots
    {
      if key !in store.slots {
        return None;
      }
      var entry := store.slots[key].entry;
      if now > entry.expiresAt {
        RemoveSize(store, key);
        store := store.Remove(key);
        return None;
      }
      r := Some(entry.value);
    }

    /** Stores the entry. A new key in a full cache evicts the oldest key: counting the new one, at
        least maxEntries insertions, all of other keys, followed that key's own. With no room for any
        entry the eviction finds nothing and fails. */
    method Set(key: Key, value: V, ttl: int, now: real) returns (ok: bool, ghost evicted: Option<Key>)
      requires Valid()
      modifies this
      ensures Valid()
      ensures ok == (maxEntries >= 1)
      ensures !ok ==> store == old(store) && latest == old(latest)
      ensures ok ==> latest == old(latest)[key := Entry(value, now + ttl as real)]
      ensures ok ==> store == old(store).AfterSet(maxEntries, key, Entry(value, now + ttl as real))
      ensures evicted.Some? <==> ok && |old(store).slots| >= maxEntries && key !in old(store).slots
      ensures ok ==> key in store.slots && store.slots[key].entry == Entry(value, now + ttl as real)
      ensures ok ==> forall k :: k != key ==>
                (k in store.slots <==> k in old(store).slots && evicted != Some(k))
                && (k in store.slots ==> store.slots[k] == old(store).slots[k])
      ensures evicted.Some? ==>
                && evicted.value in old(store).slots
                && (forall k :: k in old(store).slots ==> old(store).slots[evicted.value].number <= old(store).slots[k].number)
      ensures evicted.Some? ==>
                && old(store).IsOldest(evicted.value) && evicted.value !in store.slots && evicted.value != key
                && store.insertions == old(store).insertions + 1
                && old(store).insertions - old(store).slots[evicted.value].number >= maxEntries
    {
      ok, evicted := MakeRoom(key);
      if ok {
        Insert(key, Entry(value, now + ttl as real));
      }
    }

    method Insert(key: Key, e: Entry<V>)
      requires Valid() && (|store.slots| < maxEntries || key in store.slots)
      modifies this`store, this`latest
      ensures Valid() && store == old(store).Put(key, e) && latest == old(latest)[key := e]
    {
      PutSize(store, key, e);
      store, latest := store.Put(key, e), latest[key := e];
    }

    /** Evicts the oldest key if the cache is full and the key is new. */
    method MakeRoom(key: Key) returns (ok: bool, ghost evicted: Option<Key>)
      requires Valid()
      modifies this`store
      ensures Valid() && ok == (maxEntries >= 1)
      ensures evicted.Some? == (ok && old(store).Evicts(maxEntries, key))
      ensures store == if evicted.Some? then old(store).Remove(evicted.value) else old(store)
      ensures ok ==> |store.slots| < maxEntries || key in store.slots
      ensures ok ==> forall e :: old(store).AfterSet(maxEntries, key, e) == store.Put(key, e)
      ensures evicted.Some? ==>
                && old(store).IsOldest(evicted.value) && evicted.value != key
                && old(store).insertions - old(store).slots[evicted.value].number >= maxEntries
    {
      ok, evicted := true, None;
      if |store.slots| >= maxEntries && key !in store.slots {
        if store.slots == map[] {
          return false, None;
        }
        ghost var witness_ := OldestExists(store);
        var oldestKey :| oldestKey in store.slots && store.IsOldest(oldestKey);
        OldestIsUnique(store, oldestKey);
        SlotsFit(store, store.slots[oldestKey].number, store.insertions);
        RemoveSize(store, oldestKey);
        forall e
          ensures store.AfterSet(maxEntries, key, e) == store.Remove(oldestKey).Put(key, e)
        {
          SetEvicts(store, maxEntries, key, e, oldestKey);
        }
        evicted := Some(oldestKey);
        store := store.Remove(oldestKey);
      }
    }

    method Delete(key: Key)
      requires Valid()
      modifies this`store, this`latest
      ensures Valid() && store == old(store).Remove(key) && latest == old(latest) - {key}
      ensures store.slots == old(store).slots - {key}
    {
      RemoveSize(store, key);
      store, latest := store.Remove(key), latest - {key};
    }

    method Clear()
      requires Valid()
      modifies this`store, this`latest
      ensures Valid() && store.slots == map[] && latest == map[]
    {
      store, latest := store.(slots := map[]), map[];
    }

    /** Deletes every key that begins with the prefix, and no other. */
    method DeleteByPrefix(prefix: string)
      requires Valid()
      modifies this`store, this`latest
      ensures Valid()
      ensures store.slots == old(store).slots - WithPrefix(old(store), prefix)
      ensures latest == old(latest) - WithPrefix(old(store), prefix)
      ensures forall k :: k in store.slots <==> k in old(store).slots && !(prefix <= k)
      ensures forall k :: k in store.slots ==> store.slots[k] == old(store).slots[k]
    {
      var keysToDelete := WithPrefix(store, prefix);
      DifferenceSize(store.slots, keysToDelete);
      DeleteKeys(keysToDelete);
    }

    method DeleteKeys(keys: set<Key>)
      requires IsCurrent()
      modifies this`store, this`latest
      ensures IsCurrent() && store.slots == old(store).slots - keys && latest == old(latest) - keys
    {
      ghost var start, known := store, latest;
      var pending := keys;
      ghost var done: set<Key> := {};
      while pending != {}
        invariant IsCurrent() && done + pending == keys
        invariant store.slots == start.slots - done && latest == known - done
      {
        var key :| key in pending;
        store, latest := store.Remove(key), latest - {key};
        assert (start.slots - done) - {key} == start.slots - (done + {key});
        assert (known - done) - {key} == known - (done + {key});
        done, pending := done + {key}, pending - {key};
      }
      assert done == keys;
    }
  }

  lemma DifferenceSize<T>(m: map<Key, T>, keys: set<Key>)
    ensures |m - keys| <= |m|
  {
    assert (m - keys).Keys == m.Keys - keys;
  }

  function WithPrefix<V>(s: Store<V>, prefix: string): set<Key> {
    set k | k in s.slots && prefix <= k
  }

  lemma SetEvicts<V>(s: Store<V>, maxEntries: int, key: Key, e: Entry<V>, oldest: Key)
    requires s.Valid() && s.Evicts(maxEntries, key) && s.IsOldest(oldest)
    ensures s.AfterSet(maxEntries, key, e) == s.Remove(oldest).Put(key, e)
  {
    OldestIsUnique(s, oldest);
  }

  lemma OldestIsUnique<V>(s: Store<V>, key: Key)
    requires s.Valid() && s.IsOldest(key)
    ensures forall k :: s.IsOldest(k) ==> k == key
  {
  }
}
