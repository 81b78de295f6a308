/** What one counter key remembers of its history, when several limits may be checked against it. */
module RateLedger {
  import opened RateLimit

  /** An allowed check: its time, and the limit it was checked against. */
  datatype Stamp = Stamp(time: real, limit: Limit)

  /** All allowed checks of a key, and how many of the oldest the counter no longer lists. */
  datatype Ledger = Ledger(history: seq<Stamp>, forgotten: nat)

  const EMPTY := Ledger([], 0)

  function Times(history: seq<Stamp>): (ts: seq<real>)
    ensures |ts| == |history|
  {
    seq(|history|, i requires 0 <= i < |history| => history[i].time)
  }

  ghost predicate IsLedger(l: Ledger, clock: real) {
    l.forgotten <= |l.history| && Sorted(Times(l.history)) && NoneAfter(Times(l.history), clock)
  }

  /** The timestamps the counter lists. */
  function Listed(l: Ledger): seq<real> {
    if l.forgotten <= |l.history| then Times(l.history)[l.forgotten..] else []
  }

  function Verdict(l: Ledger, c: Limit, now: real): Decision {
    Decide(Recent(Listed(l), now - c.Window()), now, c)
  }

  /** A check trims the list to its own window; if it allows, it adds itself. */
  function Checked(l: Ledger, c: Limit, now: real): Ledger
    requires l.forgotten <= |l.history|
  {
    var forgotten := |l.history| - |Recent(Listed(l), now - c.Window())|;
    match Verdict(l, c, now)
    case IndexError => l
    case Denied(_) => Ledger(l.history, forgotten)
    case Allowed => Ledger(l.history + [Stamp(now, c)], forgotten)
  }

  /** What is old of sorted timestamps comes first. */
  lemma LastIsNewest(ts: seq<real>, cutoff: real)
    requires Sorted(ts) && ts != []
    ensures Recent(ts, cutoff) == [] <==> ts[|ts| - 1] <= cutoff
  {
    var last := |ts| - 1;
    if ts[last] <= cutoff {
      RecentOfOld(ts, cutoff);
    } else {
      assert ts == ts[..last] + [ts[last]];
      RecentAppend(ts[..last], [ts[last]], cutoff);
    }
  }

  /** Dropping the oldest f timestamps hides something exactly if the newest of them is recent. */
  lemma DroppingIsVisibleExactly(ts: seq<real>, f: nat, cutoff: real)
    requires Sorted(ts) && f <= |ts|
    ensures Recent(ts[f..], cutoff) == Recent(ts, cutoff) <==> (f > 0 ==> ts[f - 1] <= cutoff)
  {
    assert ts == ts[..f] + ts[f..];
    RecentAppend(ts[..f], ts[f..], cutoff);
    if f > 0 {
      LastIsNewest(ts[..f], cutoff);
    }
  }

  /** Trimming what is listed leaves a suffix of all timestamps, and drops only old ones. */
  lemma TrimmedIsSuffix(ts: seq<real>, f: nat, cutoff: real)
    requires Sorted(ts) && f <= |ts|
    ensures var kept := Recent(ts[f..], cutoff); var n := |ts| - |kept|;
      f <= n <= |ts| && kept == ts[n..] && (f < n ==> ts[n - 1] <= cutoff)
  {
    var listed := ts[f..];
    RecentIsSuffix(listed, cutoff);
    var k := |listed| - |Recent(listed, cutoff)|;
    assert listed[k..] == ts[f + k..];
    assert k > 0 ==> listed[k - 1] == ts[f + k - 1];
  }

  lemma TimesAppend(history: seq<Stamp>, s: Stamp)
    ensures Times(history + [s]) == Times(history) + [s.time]
  {
  }

  lemma CheckedIsLedger(l: Ledger, clock: real, c: Limit, now: real)
    requires IsLedger(l, clock) && clock <= now
    ensures IsLedger(Checked(l, c, now), now)
  {
    TimesAppend(l.history, Stamp(now, c));
    hide Recent, Decide, Listed;
  }

  /** The counter's list after a check. */
  function Relisted(ts: seq<real>, c: Limit, now: real): seq<real> {
    var kept := Recent(ts, now - c.Window());
    match Decide(kept, now, c)
    case IndexError => ts
    case Denied(_) => kept
    case Allowed => kept + [now]
  }

  lemma CheckedLists(l: Ledger, clock: real, c: Limit, now: real)
    requires IsLedger(l, clock) && clock <= now
    ensures Listed(Checked(l, c, now)) == Relisted(Listed(l), c, now)
  {
    hide Recent, Decide, Times, Sorted;
    TrimmedIsSuffix(Times(l.history), l.forgotten, now - c.Window());
    TimesAppend(l.history, Stamp(now, c));
    SuffixAppend(Times(l.history), |l.history| - |Recent(Listed(l), now - c.Window())|, now);
  }

  lemma SuffixAppend(ts: seq<real>, k: nat, t: real)
    requires k <= |ts|
    ensures (ts + [t])[k..] == ts[k..] + [t]
  {
  }

  // ---- The stamps of one limit ------------------------------------------------

  function Own(history: seq<Stamp>, c: Limit): seq<real> {
    if history == [] then []
    else
      var rest, last := Own(history[..|history| - 1], c), history[|history| - 1];
      if last.limit == c then rest + [last.time] else rest
  }

  lemma OwnAppend(history: seq<Stamp>, s: Stamp, c: Limit)
    ensures Own(history + [s], c) == if s.limit == c then Own(history, c) + [s.time] else Own(history, c)
  {
    assert (history + [s])[..|history|] == history;
  }

  /** One limit's own stamps are some of all stamps. */
  lemma {:induction false} OwnIsPart(history: seq<Stamp>, c: Limit, cutoff: real, clock: real)
    requires Sorted(Times(history)) && NoneAfter(Times(history), clock)
    ensures Sorted(Own(history, c)) && NoneAfter(Own(history, c), clock)
    ensures |Recent(Own(history, c), cutoff)| <= |Recent(Times(history), cutoff)|
  {
    if history != [] {
      var init, last := history[..|history| - 1], history[|history| - 1];
      assert history == init + [last];
      TimesAppend(init, last);
      assert Times(init) == Times(history)[..|init|];
      assert forall i :: 0 <= i < |init| ==> Times(init)[i] == Times(history)[i];
      assert last.time == Times(history)[|init|];
      OwnIsPart(init, c, cutoff, last.time);
      RecentAppend(Times(init), [last.time], cutoff);
      RecentAppend(Own(init, c), [last.time], cutoff);
    }
  }

  // ---- Forgetting ----------------------------------------------------------------

  /** Nothing forgotten is inside a window of this length, now or later. */
  ghost predicate Remembers(l: Ledger, clock: real, window: int) {
    0 < l.forgotten <= |l.history| ==> l.history[l.forgotten - 1].time <= clock - window as real
  }

  /** A check sees the whole history of its window exactly if it remembers it. */
  lemma ForgettingIsVisibleExactly(l: Ledger, now: real, window: int)
    requires IsLedger(l, now)
    ensures Recent(Listed(l), now - window as real) == Recent(Times(l.history), now - window as real) <==> Remembers(l, now, window)
  {
    DroppingIsVisibleExactly(Times(l.history), l.forgotten, now - window as real);
  }

  /** A check whose window is not shorter forgets nothing that this window needs. */
  lemma CheckedRemembers(l: Ledger, clock: real, c: Limit, now: real, window: int)
    requires IsLedger(l, clock) && clock <= now && Remembers(l, clock, window) && window <= c.windowSeconds
    ensures Remembers(Checked(l, c, now), now, window)
  {
    var ts, f := Times(l.history), |l.history| - |Recent(Listed(l), now - c.Window())|;
    TrimmedIsSuffix(ts, l.forgotten, now - c.Window());
    assert f > 0 ==> ts[f - 1] == l.history[f - 1].time;
    assert Listed(l) == ts[l.forgotten..];
    hide Recent, Decide, Sorted, Times, Listed, NoneAfter;
  }

  // ---- What a shared key still guarantees -----------------------------------------------

  /** Checks against c can make the key forget what r needs to keep its bound: r allows several requests,
      c has a shorter window, and a check against c with nothing listed does not just fail. */
  predicate Undercuts(c: Limit, r: Limit) {
    r.maxRequests >= 2 && r.windowSeconds >= 1 && c.windowSeconds < r.windowSeconds
    && (c.maxRequests >= 1 || c.windowSeconds >= 1)
  }

  /** What the key must remember for r: of a single request it is enough that, while any stamp is
      inside the window, some stamp is listed. */
  ghost predicate HasMemory(l: Ledger, clock: real, r: Limit) {
    if r.maxRequests >= 2 then Remembers(l, clock, r.windowSeconds)
    else l.forgotten == |l.history| > 0 ==> l.history[|l.history| - 1].time <= clock - r.Window()
  }

  ghost predicate Guards(l: Ledger, clock: real, r: Limit) {
    IsLedger(l, clock) && HasMemory(l, clock, r) && IsSpaced(Own(l.history, r), r)
  }

  lemma LaterGuards(l: Ledger, clock: real, now: real, r: Limit)
    requires Guards(l, clock, r) && clock <= now
    ensures Guards(l, now, r)
  {
  }

  /** A check never leaves a key with a history but an empty list, unless it failed on an empty list. */
  lemma CheckedIsListed(l: Ledger, c: Limit, now: real)
    requires l.forgotten <= |l.history|
    ensures Checked(l, c, now) == l || Checked(l, c, now).forgotten < |Checked(l, c, now).history|
  {
    hide Recent;
  }

  /** A limit without window and requests fails on every check. */
  lemma EmptyLimitFails(l: Ledger, clock: real, c: Limit, now: real)
    requires IsLedger(l, clock) && clock <= now && c.maxRequests < 1 && c.windowSeconds < 1
    ensures Checked(l, c, now) == l
  {
    assert forall i :: 0 <= i < |Listed(l)| ==> Listed(l)[i] == Times(l.history)[l.forgotten + i];
    RecentOfOld(Listed(l), now - c.Window());
  }

  lemma CheckedHasMemory(l: Ledger, clock: real, c: Limit, now: real, r: Limit)
    requires IsLedger(l, clock) && clock <= now && HasMemory(l, clock, r) && !Undercuts(c, r)
    ensures HasMemory(Checked(l, c, now), now, r)
  {
    hide Checked, Sorted;
    if r.maxRequests < 2 {
      CheckedIsListed(l, c, now);
    } else if c.windowSeconds >= r.windowSeconds {
      CheckedRemembers(l, clock, c, now, r.windowSeconds);
    } else if r.windowSeconds >= 1 {
      EmptyLimitFails(l, clock, c, now);
    } else {
      CheckedIsLedger(l, clock, c, now);
      var h, f := Checked(l, c, now).history, Checked(l, c, now).forgotten;
      assert f > 0 ==> Times(h)[f - 1] == h[f - 1].time;
    }
  }

  /** If r allows a check, its window holds fewer stamps than it may, of all limits together. */
  lemma AllowedMeansFew(l: Ledger, clock: real, r: Limit, now: real)
    requires Guards(l, clock, r) && clock <= now && Verdict(l, r, now).Allowed?
    ensures |Recent(Times(l.history), now - r.Window())| < r.maxRequests
  {
    if r.maxRequests < 2 {
      AllowedMeansNone(l, clock, r, now);
    } else {
      var ts, f, cutoff := Times(l.history), l.forgotten, now - r.Window();
      assert f > 0 ==> ts[f - 1] <= cutoff;
      DroppingIsVisibleExactly(ts, f, cutoff);
      AllowedMeansBelow(Recent(Listed(l), cutoff), now, r);
      assert Listed(l) == ts[f..];
      hide *;
    }
  }

  lemma AllowedMeansBelow(ts: seq<real>, now: real, c: Limit)
    requires Decide(ts, now, c).Allowed?
    ensures |ts| < c.maxRequests
  {
  }

  lemma AllowedMeansNone(l: Ledger, clock: real, r: Limit, now: real)
    requires IsLedger(l, clock) && HasMemory(l, clock, r) && clock <= now && r.maxRequests < 2 && Verdict(l, r, now).Allowed?
    ensures r.maxRequests == 1 && Recent(Times(l.history), now - r.Window()) == []
  {
    hide Recent;
    var cutoff, ts, n := now - r.Window(), Times(l.history), |l.history|;
    if n > 0 {
      assert ts[n - 1] == l.history[n - 1].time;
      LastIsNewest(ts, cutoff);
      if l.forgotten < n {
        LastIsNewest(ts[l.forgotten..], cutoff);
      }
    } else {
      assert ts == [] && Listed(l) == [];
    }
  }

  /** If r allows a check, its own stamps stay spaced. */
  lemma CheckedStaysSpaced(l: Ledger, clock: real, r: Limit, now: real)
    requires Guards(l, clock, r) && clock <= now && Verdict(l, r, now).Allowed?
    ensures IsSpaced(Own(l.history, r) + [now], r)
  {
    AllowedMeansFew(l, clock, r, now);
    OwnIsPart(l.history, r, now - r.Window(), clock);
    FewStaySpaced(Own(l.history, r), clock, now, r);
    hide *;
  }

  lemma FewStaySpaced(ts: seq<real>, clock: real, now: real, r: Limit)
    requires Sorted(ts) && NoneAfter(ts, clock) && clock <= now && IsSpaced(ts, r)
    requires |Recent(ts, now - r.Window())| < r.maxRequests
    ensures IsSpaced(ts + [now], r)
  {
    hide Recent, Sorted, IsSpaced;
    AllowedKeepsSpaced(ts, now, r);
  }

  /** A check keeps what r relies on, unless its limit undercuts r. */
  lemma CheckedStaysGuarded(l: Ledger, clock: real, c: Limit, now: real, r: Limit)
    requires Guards(l, clock, r) && clock <= now && !Undercuts(c, r)
    ensures Guards(Checked(l, c, now), now, r)
  {
    CheckedIsLedger(l, clock, c, now);
    CheckedHasMemory(l, clock, c, now, r);
    OwnAppend(l.history, Stamp(now, c), r);
    if c == r && Verdict(l, r, now).Allowed? {
      CheckedStaysSpaced(l, clock, r, now);
    }
  }

  function Cap(r: Limit): nat {
    if r.maxRequests < 1 then 0 else r.maxRequests
  }

  lemma GuardedIsBounded(l: Ledger, clock: real, r: Limit, lo: real)
    requires Guards(l, clock, r)
    ensures PassedIn(l.history, r, lo) <= Cap(r)
  {
    OwnIsPart(l.history, r, clock, clock);
    SpacedCount(Own(l.history, r), r, lo);
  }

  // ---- Eviction -----------------------------------------------------------------------------

  /** The bulk eviction forgets a whole key or nothing of it. */
  function EvictedLedger(l: Ledger, now: real): Ledger {
    var ts := Listed(l);
    if ts != [] && ts[|ts| - 1] > now - EVICTION_HORIZON then l else Ledger(l.history, |l.history|)
  }

  lemma EvictedLists(l: Ledger, clock: real, now: real)
    requires IsLedger(l, clock) && clock <= now
    ensures IsLedger(EvictedLedger(l, now), now) && Listed(EvictedLedger(l, now)) == Kept(Listed(l), now)
  {
    var ts := Times(l.history);
    assert Sorted(ts[l.forgotten..]);
    EvictionIsAllOrNothing(Listed(l), now);
    assert ts[|l.history|..] == [];
    hide Recent, Kept;
  }

  /** If an eviction forgets a key, all of its stamps are past the horizon. */
  lemma EvictedRemembers(l: Ledger, clock: real, now: real, window: int)
    requires IsLedger(l, clock) && clock <= now && Remembers(l, clock, window) && window <= 3600
    ensures Remembers(EvictedLedger(l, now), now, window)
  {
    var ts, n := Times(l.history), |l.history|;
    if l.forgotten < n {
      assert Listed(l)[n - l.forgotten - 1] == ts[n - 1] == l.history[n - 1].time;
    }
  }

  lemma EvictedStaysGuarded(l: Ledger, clock: real, now: real, r: Limit)
    requires Guards(l, clock, r) && clock <= now && r.windowSeconds <= 3600
    ensures Guards(EvictedLedger(l, now), now, r)
  {
    EvictedLists(l, clock, now);
    if r.maxRequests >= 2 {
      EvictedRemembers(l, clock, now, r.windowSeconds);
    } else if l.forgotten < |l.history| {
      var ts, n := Times(l.history), |l.history|;
      assert Listed(l)[n - l.forgotten - 1] == ts[n - 1] == l.history[n - 1].time;
    }
    hide Listed, Kept, Sorted, NoneAfter, Own;
  }

  // ---- Runs of checks on one key ------------------------------------------------------------

  datatype Check = Check(limit: Limit, time: real)

  function RunChecks(checks: seq<Check>): (l: Ledger)
    ensures l.forgotten <= |l.history|
  {
    if checks == [] then EMPTY
    else
      var last := checks[|checks| - 1];
      Checked(RunChecks(checks[..|checks| - 1]), last.limit, last.time)
  }

  /** Checks against these limits by a clock that does not run backwards. */
  ghost predicate IsRunOf(checks: seq<Check>, limits: set<Limit>) {
    && (forall i :: 0 <= i < |checks| ==> checks[i].limit in limits)
    && forall i, j :: 0 <= i <= j < |checks| ==> checks[i].time <= checks[j].time
  }

  ghost function LastTime(checks: seq<Check>): real {
    if checks == [] then 0.0 else checks[|checks| - 1].time
  }

  lemma EmptyGuards(clock: real, r: Limit)
    ensures Guards(EMPTY, clock, r)
  {
  }

  lemma {:induction false} RunStaysGuarded(checks: seq<Check>, limits: set<Limit>, r: Limit)
    requires IsRunOf(checks, limits) && forall c :: c in limits ==> !Undercuts(c, r)
    ensures Guards(RunChecks(checks), LastTime(checks), r)
  {
    EmptyGuards(0.0, r);
    if checks != [] {
      var init, last := checks[..|checks| - 1], checks[|checks| - 1];
      RunStaysGuarded(init, limits, r);
      EmptyGuards(last.time, r);
      CheckedStaysGuarded(RunChecks(init), if init == [] then last.time else LastTime(init), last.limit, last.time, r);
    }
  }

  // ---- A run that breaks an undercut bound ----------------------------------------------------

  function Repeated(c: Check, n: nat): seq<Check> {
    seq(n, _ => c)
  }

  function Burst(r: Limit, n: nat): seq<Stamp> {
    seq(n, _ => Stamp(0.0, r))
  }

  lemma BurstNext(r: Limit, n: nat)
    requires n > 0
    ensures Burst(r, n) == Burst(r, n - 1) + [Stamp(0.0, r)]
    ensures Repeated(Check(r, 0.0), n) == Repeated(Check(r, 0.0), n - 1) + [Check(r, 0.0)]
  {
  }

  lemma RunNext(checks: seq<Check>, c: Check)
    ensures RunChecks(checks + [c]) == Checked(RunChecks(checks), c.limit, c.time)
  {
    assert (checks + [c])[..|checks|] == checks;
  }

  /** A limit allows as many simultaneous checks as it says. */
  lemma {:induction false} BurstIsAllowed(r: Limit, n: nat)
    requires r.windowSeconds >= 1 && n <= r.maxRequests
    ensures RunChecks(Repeated(Check(r, 0.0), n)) == Ledger(Burst(r, n), 0)
  {
    if n > 0 {
      BurstIsAllowed(r, n - 1);
      BurstNext(r, n);
      RunNext(Repeated(Check(r, 0.0), n - 1), Check(r, 0.0));
      RecentOfNew(Listed(Ledger(Burst(r, n - 1), 0)), 0.0 - r.Window());
      hide Recent, RunChecks;
    } else {
      assert Repeated(Check(r, 0.0), 0) == [] && Burst(r, 0) == [];
    }
  }

  /** A check after all listed stamps left its window, and then another one. */
  lemma ForgettingCheck(l: Ledger, c: Limit, r: Limit, t: real)
    requires IsLedger(l, t) && Undercuts(c, r) && c.maxRequests >= 1
    requires forall i :: 0 <= i < |l.history| ==> l.history[i].time <= t - c.Window()
    ensures Checked(Checked(l, c, t), r, t).history == l.history + [Stamp(t, c)] + [Stamp(t, r)]
  {
    RecentOfOld(Listed(l), t - c.Window());
    CheckedLists(l, t, c, t);
    assert Listed(Checked(l, c, t)) == [t];
  }

  lemma OnlyNewestIsKept(old_: seq<real>, newest: real, cutoff: real)
    requires newest > cutoff && forall i :: 0 <= i < |old_| ==> old_[i] <= cutoff
    ensures Recent(old_ + [newest], cutoff) == [newest]
  {
    RecentAppend(old_, [newest], cutoff);
    RecentOfOld(old_, cutoff);
    RecentOfNew([newest], cutoff);
  }

  /** A check whose limit allows nothing still trims the list. */
  lemma TrimmingCheck(old_: seq<Stamp>, newest: real, c: Limit, r: Limit, t: real)
    requires IsLedger(Ledger(old_ + [Stamp(newest, r)], 0), t) && Undercuts(c, r) && c.maxRequests < 1 && old_ != []
    requires newest > t - c.Window() && forall i :: 0 <= i < |old_| ==> old_[i].time <= t - c.Window()
    ensures var l := Ledger(old_ + [Stamp(newest, r)], 0);
      Checked(Checked(l, c, t), r, t).history == l.history + [Stamp(t, r)]
  {
    var l := Ledger(old_ + [Stamp(newest, r)], 0);
    TimesAppend(old_, Stamp(newest, r));
    assert Listed(l) == Times(old_) + [newest];
    OnlyNewestIsKept(Times(old_), newest, t - c.Window());
    RecentOfNew([newest], t - r.Window());
    hide Recent, Times, Sorted, NoneAfter;
    CheckedLists(l, t, c, t);
  }

  lemma {:induction false} CountBurst(r: Limit, n: nat, hi: real)
    requires hi > 0.0
    ensures CountIn(Own(Burst(r, n), r), 0.0, hi) == n
  {
    if n > 0 {
      BurstNext(r, n);
      OwnAppend(Burst(r, n - 1), Stamp(0.0, r), r);
      CountBurst(r, n - 1, hi);
      CountNext(Own(Burst(r, n - 1), r), 0.0, 0.0, hi);
    }
  }

  lemma CountNext(ts: seq<real>, t: real, lo: real, hi: real)
    ensures CountIn(ts + [t], lo, hi) == CountIn(ts, lo, hi) + if lo <= t < hi then 1 else 0
  {
    assert (ts + [t])[..|ts|] == ts;
  }

  /** How many checks against r are in the window that begins at lo. */
  function PassedIn(history: seq<Stamp>, r: Limit, lo: real): nat {
    CountIn(Own(history, r), lo, lo + r.Window())
  }

  lemma CountBurstAndMore(r: Limit, n: nat, a: Stamp, b: Stamp)
    requires 0.0 <= a.time < r.Window() && 0.0 <= b.time < r.Window()
    ensures PassedIn(Burst(r, n) + [a] + [b], r, 0.0) == n + (if a.limit == r then 1 else 0) + if b.limit == r then 1 else 0
  {
    CountBurst(r, n, r.Window());
    hide Own, CountIn, Burst;
    OwnAppend(Burst(r, n), a, r);
    OwnAppend(Burst(r, n) + [a], b, r);
    CountNext(Own(Burst(r, n), r), a.time, 0.0, r.Window());
    CountNext(Own(Burst(r, n) + [a], r), b.time, 0.0, r.Window());
  }

  /** A burst of r, one check against c once the burst left c's window, and one more of r. */
  lemma BurstThenAnother(c: Limit, r: Limit, t: real)
    requires Undercuts(c, r) && c.maxRequests >= 1 && t >= 0.0 && c.Window() <= t < r.Window()
    ensures RunChecks(Repeated(Check(r, 0.0), r.maxRequests) + [Check(c, t)] + [Check(r, t)]).history ==
            Burst(r, r.maxRequests) + [Stamp(t, c)] + [Stamp(t, r)]
  {
    var burst, l := Repeated(Check(r, 0.0), r.maxRequests), Ledger(Burst(r, r.maxRequests), 0);
    BurstIsAllowed(r, r.maxRequests);
    ForgettingCheck(l, c, r, t);
    hide *;
    RunNext(burst, Check(c, t));
    RunNext(burst + [Check(c, t)], Check(r, t));
  }

  lemma LaterCheck(r: Limit, n: nat, t: real)
    requires n < r.maxRequests && r.windowSeconds >= 1 && t < r.Window()
    ensures RunChecks(Repeated(Check(r, 0.0), n) + [Check(r, t)]) == Ledger(Burst(r, n) + [Stamp(t, r)], 0)
  {
    var burst, l := Repeated(Check(r, 0.0), n), Ledger(Burst(r, n), 0);
    assert forall i :: 0 <= i < |Listed(l)| ==> Listed(l)[i] == 0.0;
    RecentOfNew(Listed(l), t - r.Window());
    assert |Listed(l)| == n == |l.history|;
    hide Recent, RunChecks, Burst, Listed, Repeated;
    BurstIsAllowed(r, n);
    RunNext(burst, Check(r, t));
  }

  lemma BurstIsLedger(r: Limit, n: nat, a: real, clock: real)
    requires 0.0 <= a <= clock
    ensures IsLedger(Ledger(Burst(r, n) + [Stamp(a, r)], 0), clock) && |Burst(r, n)| == n
    ensures forall i :: 0 <= i < n ==> Burst(r, n)[i].time == 0.0
  {
  }

  /** If checks against c only trim: a burst of r with one later check, of which c keeps the last. */
  lemma BurstThenTrim(c: Limit, r: Limit, half: real, t: real)
    requires Undercuts(c, r) && c.maxRequests < 1 && 0.0 < half <= t == c.Window()
    ensures RunChecks(Repeated(Check(r, 0.0), r.maxRequests - 1) + [Check(r, half)] + [Check(c, t)] + [Check(r, t)]).history ==
            Burst(r, r.maxRequests - 1) + [Stamp(half, r)] + [Stamp(t, r)]
  {
    var later, l := Repeated(Check(r, 0.0), r.maxRequests - 1) + [Check(r, half)], Ledger(Burst(r, r.maxRequests - 1) + [Stamp(half, r)], 0);
    LaterCheck(r, r.maxRequests - 1, half);
    BurstIsLedger(r, r.maxRequests - 1, half, t);
    hide Burst, RunChecks, Checked, IsLedger;
    TrimmingCheck(Burst(r, r.maxRequests - 1), half, c, r, t);
    RunNext(later, Check(c, t));
    RunNext(later + [Check(c, t)], Check(r, t));
  }

  lemma ViolatingRun(c: Limit, r: Limit) returns (checks: seq<Check>)
    requires Undercuts(c, r)
    ensures IsRunOf(checks, {c, r}) && PassedIn(RunChecks(checks).history, r, 0.0) > Cap(r)
  {
    hide PassedIn, RunChecks, Burst;
    if c.maxRequests >= 1 {
      var t := if c.windowSeconds < 0 then 0.0 else c.Window();
      BurstThenAnother(c, r, t);
      CountBurstAndMore(r, r.maxRequests, Stamp(t, c), Stamp(t, r));
      checks := Repeated(Check(r, 0.0), r.maxRequests) + [Check(c, t)] + [Check(r, t)];
    } else {
      var half, t := c.Window() / 2.0, c.Window();
      BurstThenTrim(c, r, half, t);
      CountBurstAndMore(r, r.maxRequests - 1, Stamp(half, r), Stamp(t, r));
      checks := Repeated(Check(r, 0.0), r.maxRequests - 1) + [Check(r, half)] + [Check(c, t)] + [Check(r, t)];
    }
  }

  /** A limit keeps its bound over every run of checks on a shared key exactly if no limit that shares
      the key undercuts it. */
  lemma SharedBoundExactly(limits: set<Limit>, r: Limit)
    requires r in limits
    ensures (forall checks, lo :: IsRunOf(checks, limits) ==> PassedIn(RunChecks(checks).history, r, lo) <= Cap(r))
            <==> forall c :: c in limits ==> !Undercuts(c, r)
  {
    if c :| c in limits && Undercuts(c, r) {
      var checks := ViolatingRun(c, r);
      assert IsRunOf(checks, limits) && PassedIn(RunChecks(checks).history, r, 0.0) > Cap(r);
    } else {
      forall checks, lo | IsRunOf(checks, limits)
        ensures PassedIn(RunChecks(checks).history, r, lo) <= Cap(r)
      {
        RunStaysGuarded(checks, limits, r);
        GuardedIsBounded(RunChecks(checks), LastTime(checks), r, lo);
      }
    }
  }

  /** Two requests in a minute are allowed, and a rule of one per second shares the key: a check of that
      rule ten seconds later lets a third request of the minute through. */
  lemma SharedKeyForgets(minute: Limit, second: Limit)
    requires minute == Limit(2, 60) && second == Limit(1, 1)
    ensures var two := Repeated(Check(minute, 0.0), 2);
      && Verdict(RunChecks(two), minute, 10.0) == Denied(51)
      && PassedIn(RunChecks(two + [Check(second, 10.0)] + [Check(minute, 10.0)]).history, minute, 0.0) == 3
  {
    TwoAreListed(minute, 10.0);
    assert Decide([0.0, 0.0], 10.0, minute) == Denied(51);
    hide Decide;
    BurstThenAnother(second, minute, 10.0);
    hide Recent, RunChecks, Burst, PassedIn, Verdict, Repeated;
    CountBurstAndMore(minute, 2, Stamp(10.0, second), Stamp(10.0, minute));
  }

  lemma TwoAreListed(minute: Limit, now: real)
    requires minute == Limit(2, 60) && 0.0 <= now < 60.0
    ensures Verdict(RunChecks(Repeated(Check(minute, 0.0), 2)), minute, now) == Decide([0.0, 0.0], now, minute)
  {
    BurstIsAllowed(minute, 2);
    assert Listed(Ledger(Burst(minute, 2), 0)) == [0.0, 0.0];
    RecentOfNew([0.0, 0.0], now - minute.Window());
    hide Recent, RunChecks, Burst, Decide;
  }
}
