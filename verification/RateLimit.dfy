/** The sliding-window rate limiter in front of the authentication endpoints. */
module RateLimit {

  type Key = string

  const MAX_KEYS := 100_000
  const EVICTION_HORIZON := 3600.0

  /** The answer of one check. With a limit below one and nothing recorded there is no oldest
      timestamp to read, and the check fails. */
  datatype Decision = Allowed | Denied(retryAfter: int) | IndexError

  datatype Limit = Limit(maxRequests: int, windowSeconds: int) {
    function Window(): real {
      windowSeconds as real
    }
  }

  ghost predicate NoneAfter(ts: seq<real>, now: real) {
    forall i :: 0 <= i < |ts| ==> ts[i] <= now
  }

  ghost predicate Sorted(ts: seq<real>) {
    forall i, j :: 0 <= i <= j < |ts| ==> ts[i] <= ts[j]
  }

  /** The timestamps after the cutoff. */
  function Recent(ts: seq<real>, cutoff: real): (r: seq<real>)
    ensures |r| <= |ts|
  {
    if ts == [] then []
    else if ts[0] > cutoff then [ts[0]] + Recent(ts[1..], cutoff)
    else Recent(ts[1..], cutoff)
  }

  /** Conversion to an integer drops the fraction. */
  function Truncate(x: real): int {
    if x >= 0.0 then x.Floor else -((-x).Floor)
  }

  /** The decision on the timestamps inside the window. */
  function Decide(ts: seq<real>, now: real, limit: Limit): Decision {
    if |ts| >= limit.maxRequests then
      if ts == [] then IndexError
      else
        var retryAfter := Truncate(ts[0] + limit.Window() - now) + 1;
        Denied(if retryAfter < 1 then 1 else retryAfter)
    else Allowed
  }

  /** The limiter that remembers every allowed request for ever. */
  function Ideal(history: seq<real>, now: real, limit: Limit): Decision {
    Decide(Recent(history, now - limit.Window()), now, limit)
  }

  // ---- Filtering sorted timestamps -------------------------------------

  lemma {:induction false} RecentAppend(a: seq<real>, b: seq<real>, cutoff: real)
    ensures Recent(a + b, cutoff) == Recent(a, cutoff) + Recent(b, cutoff)
  {
    if a == [] {
      assert a + b == b;
    } else {
      assert (a + b)[1..] == a[1..] + b;
      RecentAppend(a[1..], b, cutoff);
    }
  }

  lemma {:induction false} RecentOfOld(ts: seq<real>, cutoff: real)
    requires forall i :: 0 <= i < |ts| ==> ts[i] <= cutoff
    ensures Recent(ts, cutoff) == []
  {
    if ts != [] {
      RecentOfOld(ts[1..], cutoff);
    }
  }

  lemma {:induction false} RecentOfNew(ts: seq<real>, cutoff: real)
    requires forall i :: 0 <= i < |ts| ==> ts[i] > cutoff
    ensures Recent(ts, cutoff) == ts
  {
    if ts != [] {
      RecentOfNew(ts[1..], cutoff);
    }
  }

  /** Of sorted timestamps, exactly a final part is recent. */
  lemma {:induction false} RecentIsSuffix(ts: seq<real>, cutoff: real)
    requires Sorted(ts)
    ensures var n := |Recent(ts, cutoff)|;
      && n <= |ts| && Recent(ts, cutoff) == ts[|ts| - n..]
      && (forall i :: 0 <= i < |ts| - n ==> ts[i] <= cutoff)
      && (forall i :: |ts| - n <= i < |ts| ==> ts[i] > cutoff)
  {
    if ts != [] {
      if ts[0] > cutoff {
        RecentOfNew(ts, cutoff);
      } else {
        RecentIsSuffix(ts[1..], cutoff);
      }
    }
  }

  /** The places of the timestamps after the cutoff. */
  function NewerThan(ts: seq<real>, cutoff: real): set<nat> {
    set i: nat | i < |ts| && ts[i] > cutoff
  }

  lemma {:induction false} RecentCount(ts: seq<real>, cutoff: real)
    ensures |Recent(ts, cutoff)| == |NewerThan(ts, cutoff)|
    decreases |ts|
  {
    if ts != [] {
      var init, last := ts[..|ts| - 1], ts[|ts| - 1];
      assert ts == init + [last];
      RecentAppend(init, [last], cutoff);
      RecentCount(init, cutoff);
      assert NewerThan(ts, cutoff) == NewerThan(init, cutoff) + if last > cutoff then {|init|} else {};
      assert [last][1..] == [];
    }
  }

  /** The limiter that remembers everything allows a request exactly if fewer requests than the limit were
      allowed less than one window before. */
  lemma IdealAllowsExactly(history: seq<real>, now: real, limit: Limit)
    ensures var inside := set i: nat | i < |history| && history[i] > now - limit.windowSeconds as real;
      && (Ideal(history, now, limit).Allowed? <==> |inside| < limit.maxRequests)
      && (Ideal(history, now, limit).IndexError? <==> limit.maxRequests < 1 && inside == {})
  {
    RecentCount(history, now - limit.Window());
    assert NewerThan(history, now - limit.Window()) == set i: nat | i < |history| && history[i] > now - limit.windowSeconds as real;
  }

  // ---- At most maxRequests in every window ------------------------------

  /** Any two allowed requests that are maxRequests apart in the history are a window apart in time;
      a limit below one allows nothing. */
  ghost predicate IsSpaced(history: seq<real>, limit: Limit) {
    && (limit.maxRequests < 1 ==> history == [])
    && forall i, j :: 0 <= i < j < |history| && j - i == limit.maxRequests ==>
         history[j] - history[i] >= limit.Window()
  }

  function CountIn(ts: seq<real>, lo: real, hi: real): nat {
    if ts == [] then 0
    else CountIn(ts[..|ts| - 1], lo, hi) + if lo <= ts[|ts| - 1] < hi then 1 else 0
  }

  lemma {:induction false} CountInExactly(ts: seq<real>, lo: real, hi: real)
    ensures CountIn(ts, lo, hi) == |set i: nat | i < |ts| && lo <= ts[i] < hi|
  {
    var places := set i: nat | i < |ts| && lo <= ts[i] < hi;
    if ts != [] {
      var init, last := ts[..|ts| - 1], ts[|ts| - 1];
      CountInExactly(init, lo, hi);
      assert places == (set i: nat | i < |init| && lo <= init[i] < hi) + if lo <= last < hi then {|init|} else {};
    }
  }

  lemma {:induction false} CountBelow(ts: seq<real>, lo: real, hi: real)
    requires forall i :: 0 <= i < |ts| ==> ts[i] < lo
    ensures CountIn(ts, lo, hi) == 0
  {
    if ts != [] {
      CountBelow(ts[..|ts| - 1], lo, hi);
    }
  }

  lemma {:induction false} CountAppend(a: seq<real>, b: seq<real>, lo: real, hi: real)
    ensures CountIn(a + b, lo, hi) == CountIn(a, lo, hi) + CountIn(b, lo, hi)
    ensures CountIn(b, lo, hi) <= |b|
  {
    if b == [] {
      assert a + b == a;
    } else {
      assert (a + b)[..|a + b| - 1] == a + b[..|b| - 1];
      CountAppend(a, b[..|b| - 1], lo, hi);
    }
  }

  /** A spaced history has at most maxRequests entries in every half-open interval one window long. */
  lemma SpacedCount(history: seq<real>, limit: Limit, lo: real)
    requires Sorted(history) && IsSpaced(history, limit)
    ensures CountIn(history, lo, lo + limit.Window()) <= if limit.maxRequests < 1 then 0 else limit.maxRequests
  {
    if history != [] {
      SpacedCountTo(history, limit, |history|, lo);
      assert history[..|history|] == history;
    }
  }

  lemma {:induction false} SpacedCountTo(history: seq<real>, limit: Limit, n: nat, lo: real)
    requires Sorted(history) && IsSpaced(history, limit) && n <= |history| && limit.maxRequests >= 1
    ensures CountIn(history[..n], lo, lo + limit.Window()) <= limit.maxRequests
  {
    var m, hi := limit.maxRequests, lo + limit.Window();
    if n <= m {
      CountAppend([], history[..n], lo, hi);
      assert [] + history[..n] == history[..n];
    } else if history[n - 1] < hi {
      assert history[n - 1] - history[n - 1 - m] >= limit.Window();
      CountTail(history, n, m, lo, hi);
    } else {
      SpacedCountTo(history, limit, n - 1, lo);
      assert history[..n][..n - 1] == history[..n - 1];
    }
  }

  lemma CountTail(history: seq<real>, n: nat, m: nat, lo: real, hi: real)
    requires Sorted(history) && m < n <= |history| && history[n - 1 - m] < lo
    ensures CountIn(history[..n], lo, hi) <= m
  {
    assert history[..n] == history[..n - m] + history[n - m..n];
    CountBelow(history[..n - m], lo, hi);
    CountAppend(history[..n - m], history[n - m..n], lo, hi);
  }

  /** Recording a request that the ideal limiter allows keeps the history spaced. */
  lemma AllowedKeepsSpaced(history: seq<real>, now: real, limit: Limit)
    requires Sorted(history) && IsSpaced(history, limit) && NoneAfter(history, now)
    requires Ideal(history, now, limit).Allowed?
    ensures Sorted(history + [now]) && IsSpaced(history + [now], limit)
  {
    var h, m := history + [now], limit.maxRequests;
    RecentIsSuffix(history, now - limit.Window());
    forall i, j | 0 <= i < j < |h| && j - i == m
      ensures h[j] - h[i] >= limit.Window()
    {
      if j == |history| {
        assert history[i] <= now - limit.Window();
      }
    }
  }

  /** A denied caller gets a delay between one second and one second more than the window. Without
      further requests, a call after the delay is allowed, and a call more than one second before
      its end is denied again. */
  lemma RetryAfterIsSufficientAndTight(history: seq<real>, now: real, limit: Limit, later: real)
    requires Sorted(history) && IsSpaced(history, limit) && NoneAfter(history, now)
    requires limit.maxRequests >= 1 && limit.windowSeconds >= 0
    requires Ideal(history, now, limit).Denied?
    ensures var delay := Ideal(history, now, limit).retryAfter;
      && 1 <= delay <= limit.windowSeconds + 1
      && (later >= now + delay as real ==> Ideal(history, later, limit).Allowed?)
      && (now <= later < now + delay as real - 1.0 ==> Ideal(history, later, limit).Denied?)
  {
    var first := OldestInWindow(history, now, limit);
    if later >= now + Ideal(history, now, limit).retryAfter as real {
      FewerAreRecent(history, later - limit.Window(), first);
    } else if now <= later < now + Ideal(history, now, limit).retryAfter as real - 1.0 {
      AllFromAreRecent(history, later - limit.Window(), first);
    }
  }

  /** A denial means that exactly maxRequests timestamps are inside the window; the delay is computed
      from the oldest of them. */
  lemma OldestInWindow(history: seq<real>, now: real, limit: Limit) returns (first: nat)
    requires Sorted(history) && IsSpaced(history, limit) && NoneAfter(history, now)
    requires limit.maxRequests >= 1 && limit.windowSeconds >= 0 && Ideal(history, now, limit).Denied?
    ensures first + limit.maxRequests == |history| && now - limit.Window() < history[first] <= now
    ensures Ideal(history, now, limit) == Denied((history[first] + limit.Window() - now).Floor + 1)
  {
    RecentIsSuffix(history, now - limit.Window());
    RecentIsBounded(history, now, limit);
    first := |history| - |Recent(history, now - limit.Window())|;
  }

  lemma FewerAreRecent(history: seq<real>, cutoff: real, first: nat)
    requires Sorted(history) && first < |history| && history[first] <= cutoff
    ensures |Recent(history, cutoff)| < |history| - first
  {
    RecentIsSuffix(history, cutoff);
  }

  lemma AllFromAreRecent(history: seq<real>, cutoff: real, first: nat)
    requires Sorted(history) && first < |history| && history[first] > cutoff
    ensures |Recent(history, cutoff)| >= |history| - first
  {
    RecentIsSuffix(history, cutoff);
  }

  /** Never more than maxRequests timestamps are inside the window. */
  lemma RecentIsBounded(history: seq<real>, now: real, limit: Limit)
    requires Sorted(history) && IsSpaced(history, limit) && NoneAfter(history, now)
    ensures |Recent(history, now - limit.Window())| <= if limit.maxRequests < 1 then 0 else limit.maxRequests
  {
    RecentIsSuffix(history, now - limit.Window());
    var n, m := |history|, limit.maxRequests;
    if n > m >= 1 {
      assert history[n - 1] - history[n - 1 - m] >= limit.Window();
      assert history[n - 1 - m] <= now - limit.Window();
    }
  }

  // ---- Eviction ---------------------------------------------------------

  /** What the bulk eviction leaves of one key's timestamps; nothing means that the key goes. */
  function Kept(ts: seq<real>, now: real): seq<real> {
    if ts != [] && ts[|ts| - 1] > now - EVICTION_HORIZON then ts else Recent(ts, now - EVICTION_HORIZON)
  }

  function Evicted(counts: map<Key, seq<real>>, now: real): map<Key, seq<real>> {
    map k | k in counts && Kept(counts[k], now) != [] :: Kept(counts[k], now)
  }

  /** On sorted timestamps the eviction keeps a key whole or drops it; it never shortens one. */
  lemma EvictionIsAllOrNothing(ts: seq<real>, now: real)
    requires Sorted(ts)
    ensures Kept(ts, now) == if ts != [] && ts[|ts| - 1] > now - EVICTION_HORIZON then ts else []
  {
    if ts != [] && ts[|ts| - 1] <= now - EVICTION_HORIZON {
      RecentOfOld(ts, now - EVICTION_HORIZON);
    }
  }

  /** The eviction changes what a check of this key sees exactly when the newest timestamp is past
      the fixed horizon of 3600 seconds but still inside the key's own window. */
  lemma EvictionIsVisibleExactly(ts: seq<real>, now: real, limit: Limit)
    requires Sorted(ts)
    ensures Recent(Kept(ts, now), now - limit.Window()) != Recent(ts, now - limit.Window())
            <==> ts != [] && now - limit.Window() < ts[|ts| - 1] <= now - EVICTION_HORIZON
  {
    EvictionIsAllOrNothing(ts, now);
    RecentIsSuffix(ts, now - limit.Window());
  }

  /** A two-hour window of one request: an eviction after one hour lets a second request in early. */
  lemma EvictionBreaksLongWindows(limit: Limit)
    requires limit == Limit(1, 7200)
    ensures Ideal([0.0], 3600.0, limit) == Denied(3601)
    ensures Ideal(Kept([0.0], 3600.0), 3600.0, limit) == Allowed
  {
    assert Recent([0.0], -3600.0) == [0.0];
    assert [0.0][1..] == [];
    assert Kept([0.0], 3600.0) == [];
  }

  /** What the counter loses to a bulk eviction matters to no limit while nothing was evicted, and never
      to one whose window does not exceed the horizon. */
  ghost predicate IsCovered(limit: Limit, evicted: bool) {
    limit.windowSeconds <= 3600 || !evicted
  }
}
