/** The in-process counter: a list of timestamps for each key, trimmed by checks and by bulk evictions. */
module RateCounter {
  import opened RateLedger
  import opened RateLimit

  function Get(m: map<Key, seq<real>>, key: Key): seq<real> {
    if key in m then m[key] else []
  }

  function LedgerAt(ledgers: map<Key, Ledger>, key: Key): Ledger {
    if key in ledgers then ledgers[key] else EMPTY
  }

  /** A key after a check at this time: an eviction comes first, and then the check, if it was this key's. */
  function Passed(l: Ledger, crowded: bool, mine: bool, c: Limit, now: real): Ledger {
    var rest := if crowded then EvictedLedger(l, now) else l;
    if mine && rest.forgotten <= |rest.history| then Checked(rest, c, now) else rest
  }

  /** The counter lists for each key what its ledger says. */
  ghost predicate Lists(counts: map<Key, seq<real>>, ledgers: map<Key, Ledger>, clock: real) {
    forall k {:trigger LedgerAt(ledgers, k)} ::
      IsLedger(LedgerAt(ledgers, k), clock) && Get(counts, k) == Listed(LedgerAt(ledgers, k))
  }

  /** What a check did to all ledgers, and what it answered. */
  ghost predicate IsCheck(before: map<Key, Ledger>, after: map<Key, Ledger>, crowded: bool, key: Key, c: Limit, now: real, r: Decision) {
    && r == Verdict(Passed(LedgerAt(before, key), crowded, false, c, now), c, now)
    && forall k {:trigger LedgerAt(after, k)} :: LedgerAt(after, k) == Passed(LedgerAt(before, k), crowded, k == key, c, now)
  }

  function AfterEviction(counts: map<Key, seq<real>>, now: real): map<Key, seq<real>> {
    if |counts| > MAX_KEYS then Evicted(counts, now) else counts
  }

  function CountsAfter(r: Decision, counts: map<Key, seq<real>>, key: Key, trimmed: seq<real>, now: real): map<Key, seq<real>> {
    match r
    case IndexError => counts
    case Denied(_) => counts[key := trimmed]
    case Allowed => counts[key := trimmed + [now]]
  }

  ghost function EvictedLedgers(ledgers: map<Key, Ledger>, now: real): map<Key, Ledger> {
    map k | k in ledgers :: EvictedLedger(ledgers[k], now)
  }

  lemma EvictedStaysListed(counts: map<Key, seq<real>>, ledgers: map<Key, Ledger>, clock: real, now: real)
    requires Lists(counts, ledgers, clock) && clock <= now
    ensures Lists(Evicted(counts, now), EvictedLedgers(ledgers, now), now)
    ensures forall k {:trigger LedgerAt(EvictedLedgers(ledgers, now), k)} ::
              LedgerAt(EvictedLedgers(ledgers, now), k) == EvictedLedger(LedgerAt(ledgers, k), now)
  {
    forall k
      ensures LedgerAt(EvictedLedgers(ledgers, now), k) == EvictedLedger(LedgerAt(ledgers, k), now)
      ensures IsLedger(LedgerAt(EvictedLedgers(ledgers, now), k), now)
      ensures Get(Evicted(counts, now), k) == Listed(LedgerAt(EvictedLedgers(ledgers, now), k))
    {
      EvictedKey(counts, ledgers, clock, now, k);
    }
  }

  lemma EvictedKey(counts: map<Key, seq<real>>, ledgers: map<Key, Ledger>, clock: real, now: real, k: Key)
    requires Lists(counts, ledgers, clock) && clock <= now
    ensures LedgerAt(EvictedLedgers(ledgers, now), k) == EvictedLedger(LedgerAt(ledgers, k), now)
    ensures IsLedger(EvictedLedger(LedgerAt(ledgers, k), now), now)
    ensures Get(Evicted(counts, now), k) == Listed(EvictedLedger(LedgerAt(ledgers, k), now))
  {
    EvictedLists(LedgerAt(ledgers, k), clock, now);
    hide Listed, EvictedLedger, Recent, IsLedger;
  }

  lemma CheckedStaysListed(counts: map<Key, seq<real>>, ledgers: map<Key, Ledger>, clock: real, key: Key, c: Limit, now: real)
    requires Lists(counts, ledgers, clock) && clock <= now
    ensures var l, trimmed := LedgerAt(ledgers, key), Recent(Get(counts, key), now - c.Window());
      var r := Decide(trimmed, now, c);
      && r == Verdict(l, c, now)
      && Lists(CountsAfter(r, counts, key, trimmed, now), ledgers[key := Checked(l, c, now)], now)
  {
    var l, trimmed := LedgerAt(ledgers, key), Recent(Get(counts, key), now - c.Window());
    var r := Decide(trimmed, now, c);
    CheckedLists(l, clock, c, now);
    CheckedIsLedger(l, clock, c, now);
    assert Get(CountsAfter(r, counts, key, trimmed, now), key) == Listed(Checked(l, c, now));
    var after := ledgers[key := Checked(l, c, now)];
    hide Relisted, Listed, Checked, Recent, Decide;
    forall k
      ensures IsLedger(LedgerAt(after, k), now)
      ensures Get(CountsAfter(r, counts, key, trimmed, now), k) == Listed(LedgerAt(after, k))
    {
      assert LedgerAt(after, k) == if k == key then Checked(l, c, now) else LedgerAt(ledgers, k);
    }
  }

  lemma KeptExactly(ts: seq<real>, now: real)
    ensures Kept(ts, now) != [] <==> exists i :: 0 <= i < |ts| && ts[i] > now - 3600.0
  {
    if i :| 0 <= i < |ts| && ts[i] > now - 3600.0 {
      RecentKeeps(ts, now - EVICTION_HORIZON, i);
    } else {
      RecentOfOld(ts, now - EVICTION_HORIZON);
    }
  }

  lemma RecentKeeps(ts: seq<real>, cutoff: real, i: nat)
    requires i < |ts| && ts[i] > cutoff
    ensures Recent(ts, cutoff) != []
  {
    RecentCount(ts, cutoff);
    assert i in NewerThan(ts, cutoff);
  }

  /** A key stays exactly if it has a timestamp within the last hour. */
  lemma EvictedExactly(counts: map<Key, seq<real>>, now: real)
    ensures forall k :: k in Evicted(counts, now) <==>
              k in counts && exists i :: 0 <= i < |counts[k]| && counts[k][i] > now - 3600.0
  {
    forall k | k in counts
      ensures Kept(counts[k], now) != [] <==> exists i :: 0 <= i < |counts[k]| && counts[k][i] > now - 3600.0
    {
      KeptExactly(counts[k], now);
    }
  }

  class InMemoryCounter {
    var counts: map<Key, seq<real>>
    /** For each key all requests ever allowed, and the latest clock reading. */
    ghost var ledgers: map<Key, Ledger>
    ghost var clock: real
    /** Whether keys were ever evicted in bulk. */
    ghost var evicted: bool

    constructor (start: real)
      ensures Valid() && counts == map[] && ledgers == map[] && clock == start && !evicted
    {
      counts, ledgers, clock, evicted := map[], map[], start, false;
    }

    ghost predicate Valid()
      reads this
    {
      Lists(counts, ledgers, clock)
    }

    method EvictExpired(now: real)
      modifies this`counts
      ensures counts == Evicted(old(counts), now)
    {
      ghost var before := counts;
      ghost var kept := map k | k in before :: Kept(before[k], now);
      var expiredKeys: seq<Key> := [];
      var pending := counts.Keys;
      while pending != {}
        invariant forall k :: k in counts <==> k in before
        invariant forall k :: k in pending ==> k in before && counts[k] == before[k]
        invariant forall k :: k in before && k !in pending && kept[k] != [] ==> counts[k] == kept[k]
        invariant forall k :: k in expiredKeys <==> k in before && k !in pending && kept[k] == []
      {
        var key :| key in pending;
        var timestamps := counts[key];
        pending := pending - {key};
        if timestamps != [] && timestamps[|timestamps| - 1] > now - EVICTION_HORIZON {
          assert kept[key] == timestamps;
        } else {
          var filtered := Recent(timestamps, now - EVICTION_HORIZON);
          assert kept[key] == filtered;
          if filtered != [] {
            counts := counts[key := filtered];
          } else {
            expiredKeys := expiredKeys + [key];
          }
        }
      }
      DropKeys(expiredKeys);
    }

    method DropKeys(keys: seq<Key>)
      modifies this`counts
      ensures counts == map k | k in old(counts) && k !in keys :: old(counts)[k]
    {
      for i := 0 to |keys|
        invariant counts == map k | k in old(counts) && k !in keys[..i] :: old(counts)[k]
      {
        counts := counts - {keys[i]};
      }
    }

    method EvictIfCrowded(now: real)
      requires Valid() && clock <= now
      modifies this
      ensures Valid() && clock == now
      ensures counts == AfterEviction(old(counts), now) && evicted == (old(evicted) || |old(counts)| > MAX_KEYS)
      ensures forall k {:trigger LedgerAt(ledgers, k)} ::
                LedgerAt(ledgers, k) ==
                if |old(counts)| > MAX_KEYS then EvictedLedger(LedgerAt(old(ledgers), k), now) else LedgerAt(old(ledgers), k)
    {
      hide Evicted, EvictedLedgers, EvictedLedger, Listed;
      if |counts| > MAX_KEYS {
        EvictedStaysListed(counts, ledgers, clock, now);
        EvictExpired(now);
        ledgers, evicted := EvictedLedgers(ledgers, now), true;
      }
      clock := now;
    }

    /** Decides on the key's remembered timestamps inside the window, and records an allowed request.
        Other keys are not affected, except by an eviction. */
    method CheckAndIncrement(key: Key, limit: Limit, now: real) returns (r: Decision)
      requires Valid() && clock <= now
      modifies this
      ensures Valid() && clock == now && evicted == (old(evicted) || |old(counts)| > MAX_KEYS)
      ensures var kept := AfterEviction(old(counts), now);
        var trimmed := Recent(Get(kept, key), now - limit.Window());
        r == Decide(trimmed, now, limit) && counts == CountsAfter(r, kept, key, trimmed, now)
      ensures IsCheck(old(ledgers), ledgers, |old(counts)| > MAX_KEYS, key, limit, now, r)
    {
      EvictIfCrowded(now);
      hide Recent, Decide, Checked, EvictedLedger, Listed, Verdict, IsLedger;
      ghost var middle := ledgers;
      r := CheckKey(key, limit, now);
      forall k
        ensures LedgerAt(ledgers, k) == Passed(LedgerAt(old(ledgers), k), |old(counts)| > MAX_KEYS, k == key, limit, now)
      {
        assert LedgerAt(ledgers, k) == if k == key then Checked(LedgerAt(middle, k), limit, now) else LedgerAt(middle, k);
      }
    }

    /** Trims one key, decides, and records an allowed request. */
    method CheckKey(key: Key, limit: Limit, now: real) returns (r: Decision)
      requires Valid() && clock == now
      modifies this`counts, this`ledgers
      ensures Valid()
      ensures r == Verdict(LedgerAt(old(ledgers), key), limit, now)
      ensures var trimmed := Recent(Get(old(counts), key), now - limit.Window());
        r == Decide(trimmed, now, limit) && counts == CountsAfter(r, old(counts), key, trimmed, now)
      ensures LedgerAt(old(ledgers), key).forgotten <= |LedgerAt(old(ledgers), key).history|
      ensures ledgers == old(ledgers)[key := Checked(LedgerAt(old(ledgers), key), limit, now)]
    {
      hide Recent, Decide, Checked, Listed, Verdict;
      CheckedStaysListed(counts, ledgers, clock, key, limit, now);
      ghost var l := LedgerAt(ledgers, key);
      var timestamps := Recent(if key in counts then counts[key] else [], now - limit.Window());
      r := Decide(timestamps, now, limit);
      match r {
        case IndexError =>
        case Denied(_) => counts := counts[key := timestamps];
        case Allowed => counts := counts[key := timestamps + [now]];
      }
      ledgers := ledgers[key := Checked(l, limit, now)];
    }
  }
}
