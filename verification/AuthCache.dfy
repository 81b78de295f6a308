/** The two-level authentication cache as a protocol: several processes, each with its own first
    level, share one second level with a time to live. A call is cut into steps where it awaits. */
module AuthCache {
  import opened L1
  import opened Outcomes

  type Proc = nat

  type Data = map<string, string>

  const SECRET_FIELD := "hashed_password"

  /** A cached value and the time at which the call that set it ran. */
  datatype Stamped = Stamped(data: Data, written: real)

  datatype Config = Config(ttl: Key -> nat, maxEntries: int, lag: real) {
    /** Times to live are positive, and a call takes at most `lag` from one of its steps to the next. */
    ghost predicate Valid() {
      lag >= 0.0 && forall k :: ttl(k) >= 1
    }

    function Ttl(k: Key): real {
      ttl(k) as real
    }
  }

  /** A value fetched from the second level and not yet put into the reader's first level. */
  datatype Read = Read(proc: Proc, key: Key, value: Stamped, fetchedAt: real)

  /** A value put into the writer's first level and not yet sent to the second level. */
  datatype Write = Write(key: Key, value: Stamped)

  datatype World = World(
    now: real,
    l1: map<Proc, Store<Stamped>>,
    l2: map<Key, Entry<Stamped>>,
    fetches: set<Read>,
    writes: set<Write>,
    sets: set<(Key, Stamped)>)

  datatype Step =
    | Tick(until: real)
    | LookupL1(proc: Proc, key: Key)
    | FetchL2(proc: Proc, key: Key)
    | FillL1(read: Read)
    | SetL1(proc: Proc, key: Key, data: Data)
    | SetL2(write: Write, accepted: bool)
    | DeleteL1(proc: Proc, key: Key)
    | DeleteL2(key: Key, accepted: bool)

  function LocalStore(w: World, p: Proc): Store<Stamped> {
    if p in w.l1 then w.l1[p] else Store(map[], 0)
  }

  function Stripped(data: Data): Data {
    data - {SECRET_FIELD}
  }

  /** Every field but the secret one is kept. */
  lemma StrippedKeepsTheRest(data: Data, field: string)
    ensures field in Stripped(data) <==> field in data && field != "hashed_password"
    ensures field in Stripped(data) ==> Stripped(data)[field] == data[field]
  {
  }

  /** A first level without room for any entry refuses the value, and nothing is cached there. */
  ghost function StoreLocally(cfg: Config, s: Store<Stamped>, k: Key, value: Stamped, now: real): Store<Stamped> {
    if cfg.maxEntries < 1 then s else s.AfterSet(cfg.maxEntries, k, Entry(value, now + cfg.Ttl(k)))
  }

  ghost predicate Enabled(cfg: Config, w: World, s: Step) {
    match s
    case Tick(until) => w.now <= until
    case FillL1(read) => read in w.fetches && w.now <= read.fetchedAt + cfg.lag
    case SetL2(write, _) => write in w.writes && w.now <= write.value.written + cfg.lag
    case _ => true
  }

  ghost function Next(cfg: Config, w: World, s: Step): World {
    match s
    case Tick(until) => w.(now := until)
    case LookupL1(p, k) => w.(l1 := w.l1[p := LocalStore(w, p).AfterLookup(k, w.now)])
    case FetchL2(p, k) =>
      if k in w.l2 && w.now < w.l2[k].expiresAt
      then w.(fetches := w.fetches + {Read(p, k, w.l2[k].value, w.now)})
      else w
    case FillL1(read) =>
      w.(fetches := w.fetches - {read},
         l1 := w.l1[read.proc := StoreLocally(cfg, LocalStore(w, read.proc), read.key, read.value, w.now)])
    case SetL1(p, k, data) =>
      if cfg.maxEntries < 1 then w
      else
        var value := Stamped(Stripped(data), w.now);
        w.(l1 := w.l1[p := StoreLocally(cfg, LocalStore(w, p), k, value, w.now)],
           writes := w.writes + {Write(k, value)},
           sets := w.sets + {(k, value)})
    case SetL2(write, accepted) =>
      w.(writes := w.writes - {write},
         l2 := if accepted then w.l2[write.key := Entry(write.value, w.now + cfg.Ttl(write.key))] else w.l2)
    case DeleteL1(p, k) => w.(l1 := w.l1[p := LocalStore(w, p).Remove(k)])
    case DeleteL2(k, accepted) => if accepted then w.(l2 := w.l2 - {k}) else w
  }

  /** What the step returns to a caller that asked for the key: a first-level hit, or the value
      fetched from the second level once it was put into the first. */
  function Returned(cfg: Config, w: World, s: Step): Option<(Key, Stamped)> {
    match s
    case LookupL1(p, k) =>
      var hit := LocalStore(w, p).Lookup(k, w.now);
      if hit.Some? then Some((k, hit.value)) else None
    case FillL1(read) => if cfg.maxEntries < 1 then None else Some((read.key, read.value))
    case _ => None
  }

  ghost predicate IsRun(cfg: Config, w: World, steps: seq<Step>)
    decreases |steps|
  {
    steps == [] || (Enabled(cfg, w, steps[0]) && IsRun(cfg, Next(cfg, w, steps[0]), steps[1..]))
  }

  ghost function After(cfg: Config, w: World, steps: seq<Step>): World
    decreases |steps|
  {
    if steps == [] then w else After(cfg, Next(cfg, w, steps[0]), steps[1..])
  }

  lemma {:induction false} RunNext(cfg: Config, w: World, steps: seq<Step>, s: Step)
    requires IsRun(cfg, w, steps) && Enabled(cfg, After(cfg, w, steps), s)
    ensures IsRun(cfg, w, steps + [s]) && After(cfg, w, steps + [s]) == Next(cfg, After(cfg, w, steps), s)
    decreases |steps|
  {
    if steps == [] {
      assert ([s])[1..] == [];
    } else {
      assert (steps + [s])[1..] == steps[1..] + [s];
      RunNext(cfg, Next(cfg, w, steps[0]), steps[1..], s);
    }
  }

  const START := World(0.0, map[], map[], {}, {}, {})

  // ---- What every run keeps --------------------------------------------------

  /** A first-level entry holds a value that was set for its key, and expires in time. */
  ghost predicate IsFreshLocal(cfg: Config, w: World, k: Key, e: Entry<Stamped>) {
    && (k, e.value) in w.sets
    && e.expiresAt <= w.now + cfg.Ttl(k)
    && e.expiresAt < e.value.written + 2.0 * cfg.Ttl(k) + 2.0 * cfg.lag
  }

  ghost predicate IsFreshShared(cfg: Config, w: World, k: Key, e: Entry<Stamped>) {
    (k, e.value) in w.sets && e.expiresAt <= e.value.written + cfg.lag + cfg.Ttl(k)
  }

  ghost predicate IsFreshRead(cfg: Config, w: World, r: Read) {
    && (r.key, r.value) in w.sets && r.fetchedAt <= w.now
    && r.fetchedAt < r.value.written + cfg.lag + cfg.Ttl(r.key)
  }

  ghost predicate LocalsFresh(cfg: Config, w: World) {
    forall p, k :: p in w.l1 && k in w.l1[p].slots ==> IsFreshLocal(cfg, w, k, w.l1[p].slots[k].entry)
  }

  ghost predicate Inv(cfg: Config, w: World) {
    && LocalsFresh(cfg, w)
    && (forall k :: k in w.l2 ==> IsFreshShared(cfg, w, k, w.l2[k]))
    && (forall r :: r in w.fetches ==> IsFreshRead(cfg, w, r))
    && (forall x :: x in w.writes ==> (x.key, x.value) in w.sets)
    && SetsStripped(w)
  }

  ghost predicate SetsStripped(w: World) {
    forall s: (Key, Stamped) :: s in w.sets ==> SECRET_FIELD !in s.1.data && s.1.written <= w.now
  }

  /** Storing adds at most the new entry to what the store already holds. */
  lemma StoredEntries(cfg: Config, s: Store<Stamped>, k: Key, value: Stamped, now: real, x: Key)
    requires x in StoreLocally(cfg, s, k, value, now).slots
    ensures var e := StoreLocally(cfg, s, k, value, now).slots[x].entry;
      (x == k && e == Entry(value, now + cfg.Ttl(k))) || (x in s.slots && e == s.slots[x].entry)
  {
  }

  /** One process's store may change if its entries stay fresh. */
  lemma LocalsStayFresh(cfg: Config, w: World, v: World, p: Proc)
    requires LocalsFresh(cfg, w) && w.sets <= v.sets && w.now <= v.now
    requires p in v.l1 && v.l1 == w.l1[p := v.l1[p]]
    requires forall k :: k in v.l1[p].slots ==>
               || (k in LocalStore(w, p).slots && v.l1[p].slots[k].entry == LocalStore(w, p).slots[k].entry)
               || IsFreshLocal(cfg, v, k, v.l1[p].slots[k].entry)
    ensures LocalsFresh(cfg, v)
  {
    forall q, k | q in v.l1 && k in v.l1[q].slots
      ensures IsFreshLocal(cfg, v, k, v.l1[q].slots[k].entry)
    {
      if q != p {
        assert IsFreshLocal(cfg, w, k, w.l1[q].slots[k].entry);
      } else if k in LocalStore(w, p).slots && v.l1[p].slots[k].entry == LocalStore(w, p).slots[k].entry {
        assert IsFreshLocal(cfg, w, k, w.l1[p].slots[k].entry);
      }
    }
  }

  lemma StoringStaysFresh(cfg: Config, w: World, v: World, p: Proc, k: Key, value: Stamped)
    requires LocalsFresh(cfg, w) && w.sets <= v.sets && w.now == v.now
    requires v.l1 == w.l1[p := StoreLocally(cfg, LocalStore(w, p), k, value, w.now)]
    requires IsFreshLocal(cfg, v, k, Entry(value, w.now + cfg.Ttl(k)))
    ensures LocalsFresh(cfg, v)
  {
    forall x | x in v.l1[p].slots
      ensures (x in LocalStore(w, p).slots && v.l1[p].slots[x].entry == LocalStore(w, p).slots[x].entry)
        || IsFreshLocal(cfg, v, x, v.l1[p].slots[x].entry)
    {
      StoredEntries(cfg, LocalStore(w, p), k, value, w.now, x);
    }
    LocalsStayFresh(cfg, w, v, p);
  }

  lemma StepKeepsLocals(cfg: Config, w: World, s: Step)
    requires cfg.Valid() && Inv(cfg, w) && Enabled(cfg, w, s)
    ensures LocalsFresh(cfg, Next(cfg, w, s))
  {
    var v := Next(cfg, w, s);
    match s
    case LookupL1(p, k) =>
      LocalsStayFresh(cfg, w, v, p);
    case FillL1(read) =>
      assert IsFreshRead(cfg, w, read);
      StoringStaysFresh(cfg, w, v, read.proc, read.key, read.value);
    case SetL1(p, k, data) =>
      if cfg.maxEntries >= 1 {
        StoringStaysFresh(cfg, w, v, p, k, Stamped(Stripped(data), w.now));
      }
    case DeleteL1(p, k) =>
      LocalsStayFresh(cfg, w, v, p);
    case _ =>
      forall p, k | p in v.l1 && k in v.l1[p].slots
        ensures IsFreshLocal(cfg, v, k, v.l1[p].slots[k].entry)
      {
        assert IsFreshLocal(cfg, w, k, w.l1[p].slots[k].entry);
      }
  }

  lemma StepKeepsShared(cfg: Config, w: World, s: Step)
    requires cfg.Valid() && Inv(cfg, w) && Enabled(cfg, w, s)
    ensures forall k :: k in Next(cfg, w, s).l2 ==> IsFreshShared(cfg, Next(cfg, w, s), k, Next(cfg, w, s).l2[k])
  {
    var v := Next(cfg, w, s);
    forall k | k in v.l2
      ensures IsFreshShared(cfg, v, k, v.l2[k])
    {
      if k in w.l2 {
        assert IsFreshShared(cfg, w, k, w.l2[k]);
      }
    }
  }

  lemma StepKeepsFetches(cfg: Config, w: World, s: Step)
    requires cfg.Valid() && Inv(cfg, w) && Enabled(cfg, w, s)
    ensures forall r :: r in Next(cfg, w, s).fetches ==> IsFreshRead(cfg, Next(cfg, w, s), r)
  {
    var v := Next(cfg, w, s);
    forall r | r in v.fetches
      ensures IsFreshRead(cfg, v, r)
    {
      if r in w.fetches {
        assert IsFreshRead(cfg, w, r);
      } else {
        assert IsFreshShared(cfg, w, r.key, w.l2[r.key]);
      }
    }
  }

  lemma StepKeepsSets(cfg: Config, w: World, s: Step)
    requires Inv(cfg, w) && Enabled(cfg, w, s)
    ensures SetsStripped(Next(cfg, w, s))
    ensures forall x :: x in Next(cfg, w, s).writes ==> (x.key, x.value) in Next(cfg, w, s).sets
  {
    match s
    case Tick(_) =>
    case SetL1(_, _, _) =>
    case SetL2(_, _) =>
    case _ =>
  }

  lemma StepKeepsInv(cfg: Config, w: World, s: Step)
    requires cfg.Valid() && Inv(cfg, w) && Enabled(cfg, w, s)
    ensures Inv(cfg, Next(cfg, w, s))
  {
    StepKeepsLocals(cfg, w, s);
    StepKeepsShared(cfg, w, s);
    StepKeepsFetches(cfg, w, s);
    StepKeepsSets(cfg, w, s);
  }

  lemma {:induction false} RunKeepsInv(cfg: Config, w: World, steps: seq<Step>)
    requires cfg.Valid() && Inv(cfg, w) && IsRun(cfg, w, steps)
    ensures Inv(cfg, After(cfg, w, steps))
    decreases |steps|
  {
    if steps != [] {
      StepKeepsInv(cfg, w, steps[0]);
      RunKeepsInv(cfg, Next(cfg, w, steps[0]), steps[1..]);
    }
  }

  /** Whatever is returned on any run was set for that key, without the secret field, less than two
      times to live (and twice the lag of a call) before. */
  lemma ReturnedIsRecent(cfg: Config, steps: seq<Step>, s: Step)
    requires cfg.Valid() && IsRun(cfg, START, steps) && Enabled(cfg, After(cfg, START, steps), s)
    ensures var w := After(cfg, START, steps); var r := Returned(cfg, w, s);
      r.Some? ==>
        && r.value in w.sets && SECRET_FIELD !in r.value.1.data
        && w.now - r.value.1.written < 2.0 * cfg.Ttl(r.value.0) + 2.0 * cfg.lag
  {
    RunKeepsInv(cfg, START, steps);
  }

  ghost function SlowStart(cfg: Config, p: Proc, k: Key, data: Data, d: real): seq<Step> {
    [SetL1(p, k, data)] + [Tick(cfg.lag)] + [SetL2(Write(k, Stamped(Stripped(data), 0.0)), true)] + [Tick(cfg.lag + cfg.Ttl(k) - d)]
  }

  ghost function SlowEnd(cfg: Config, q: Proc, k: Key, data: Data, d: real): seq<Step> {
    var fetched := cfg.lag + cfg.Ttl(k) - d;
    [FetchL2(q, k)] + [Tick(fetched + cfg.lag)] + [FillL1(Read(q, k, Stamped(Stripped(data), 0.0), fetched))]
      + [Tick(fetched + cfg.lag + cfg.Ttl(k))]
  }

  /** The bound is tight: the second level is written as late as a call may be, read by another process
      just before it expires, and the first level of that process just before it does. */
  lemma ReturnedIsAlmostThatOld(cfg: Config, p: Proc, q: Proc, k: Key, data: Data, d: real)
    requires cfg.Valid() && cfg.maxEntries >= 1 && p != q && 0.0 < d <= 1.0
    ensures var steps := SlowStart(cfg, p, k, data, d) + SlowEnd(cfg, q, k, data, d);
      var w := After(cfg, START, steps);
      && IsRun(cfg, START, steps)
      && Returned(cfg, w, LookupL1(q, k)) == Some((k, Stamped(Stripped(data), 0.0)))
      && w.now == 2.0 * cfg.Ttl(k) + 2.0 * cfg.lag - d
  {
    var start, end := SlowStart(cfg, p, k, data, d), SlowEnd(cfg, q, k, data, d);
    var v := SlowStartRuns(cfg, p, q, k, data, d);
    SlowEndRuns(cfg, v, q, k, data, d);
    hide IsRun, After, Returned, SlowStart, SlowEnd;
    RunsJoin(cfg, START, start, end);
  }

  lemma SlowStartRuns(cfg: Config, p: Proc, q: Proc, k: Key, data: Data, d: real) returns (v: World)
    requires cfg.Valid() && cfg.maxEntries >= 1 && p != q && 0.0 < d <= 1.0
    ensures IsRun(cfg, START, SlowStart(cfg, p, k, data, d)) && v == After(cfg, START, SlowStart(cfg, p, k, data, d))
    ensures v.now == cfg.lag + cfg.Ttl(k) - d && q !in v.l1
    ensures k in v.l2 && v.l2[k] == Entry(Stamped(Stripped(data), 0.0), cfg.lag + cfg.Ttl(k))
  {
    hide StoreLocally;
    var write := Write(k, Stamped(Stripped(data), 0.0));
    var a := Next(cfg, START, SetL1(p, k, data));
    var b := Next(cfg, a, Tick(cfg.lag));
    assert a.writes == {write};
    var c := Next(cfg, b, SetL2(write, true));
    v := Next(cfg, c, Tick(cfg.lag + cfg.Ttl(k) - d));
    RunOfFour(cfg, START, SetL1(p, k, data), Tick(cfg.lag), SetL2(write, true), Tick(cfg.lag + cfg.Ttl(k) - d));
  }

  lemma SlowEndRuns(cfg: Config, v: World, q: Proc, k: Key, data: Data, d: real)
    requires cfg.Valid() && cfg.maxEntries >= 1 && 0.0 < d <= 1.0
    requires v.now == cfg.lag + cfg.Ttl(k) - d && q !in v.l1
    requires k in v.l2 && v.l2[k] == Entry(Stamped(Stripped(data), 0.0), cfg.lag + cfg.Ttl(k))
    ensures IsRun(cfg, v, SlowEnd(cfg, q, k, data, d))
    ensures var w := After(cfg, v, SlowEnd(cfg, q, k, data, d));
      && Returned(cfg, w, LookupL1(q, k)) == Some((k, Stamped(Stripped(data), 0.0)))
      && w.now == 2.0 * cfg.Ttl(k) + 2.0 * cfg.lag - d
  {
    hide StoreLocally;
    var fetched, value := cfg.lag + cfg.Ttl(k) - d, Stamped(Stripped(data), 0.0);
    var read := Read(q, k, value, fetched);
    var filled := fetched + cfg.lag;
    var a := Next(cfg, v, FetchL2(q, k));
    assert read in a.fetches && a.l1 == v.l1;
    var b := Next(cfg, a, Tick(filled));
    var c := Next(cfg, b, FillL1(read));
    var w := Next(cfg, c, Tick(filled + cfg.Ttl(k)));
    RunOfFour(cfg, v, FetchL2(q, k), Tick(filled), FillL1(read), Tick(filled + cfg.Ttl(k)));
    FilledIsHit(cfg, k, value, filled);
    assert LocalStore(w, q) == StoreLocally(cfg, Store(map[], 0), k, value, filled);
  }

  lemma FilledIsHit(cfg: Config, k: Key, value: Stamped, now: real)
    requires cfg.Valid() && cfg.maxEntries >= 1
    ensures StoreLocally(cfg, Store(map[], 0), k, value, now).Lookup(k, now + cfg.Ttl(k)) == Some(value)
  {
  }

  lemma {:induction false} RunsJoin(cfg: Config, w: World, a: seq<Step>, b: seq<Step>)
    requires IsRun(cfg, w, a) && IsRun(cfg, After(cfg, w, a), b)
    ensures IsRun(cfg, w, a + b) && After(cfg, w, a + b) == After(cfg, After(cfg, w, a), b)
    decreases |a|
  {
    if a == [] {
      assert a + b == b;
    } else {
      assert (a + b)[1..] == a[1..] + b;
      RunsJoin(cfg, Next(cfg, w, a[0]), a[1..], b);
    }
  }

  // ---- Invalidation -------------------------------------------------------------

  ghost predicate NeverSets(steps: seq<Step>, k: Key) {
    forall i :: 0 <= i < |steps| ==> !(steps[i].SetL1? && steps[i].key == k)
  }

  /** The second level lost the key for good, and what is left of it elsewhere expires by the deadline. */
  ghost predicate FadesBy(cfg: Config, w: World, k: Key, deadline: real) {
    && k !in w.l2
    && (forall x :: x in w.writes ==> x.key != k)
    && (forall r :: r in w.fetches && r.key == k ==> r.fetchedAt + cfg.lag + cfg.Ttl(k) <= deadline)
    && (forall p :: p in w.l1 && k in w.l1[p].slots ==> w.l1[p].slots[k].entry.expiresAt <= deadline)
  }

  lemma StoringKeepsFading(cfg: Config, s: Store<Stamped>, x: Key, value: Stamped, now: real, k: Key, deadline: real)
    requires k in s.slots ==> s.slots[k].entry.expiresAt <= deadline
    requires x == k ==> now + cfg.Ttl(k) <= deadline
    ensures var t := StoreLocally(cfg, s, x, value, now);
      k in t.slots ==> t.slots[k].entry.expiresAt <= deadline
  {
    if k in StoreLocally(cfg, s, x, value, now).slots {
      StoredEntries(cfg, s, x, value, now, k);
    }
  }

  lemma StepKeepsLocalFading(cfg: Config, w: World, s: Step, k: Key, deadline: real, p: Proc)
    requires FadesBy(cfg, w, k, deadline) && Enabled(cfg, w, s) && !(s.SetL1? && s.key == k)
    ensures var t := LocalStore(Next(cfg, w, s), p);
      k in t.slots ==> t.slots[k].entry.expiresAt <= deadline
  {
    match s
    case FillL1(read) =>
      StoringKeepsFading(cfg, LocalStore(w, read.proc), read.key, read.value, w.now, k, deadline);
    case SetL1(q, x, data) =>
      StoringKeepsFading(cfg, LocalStore(w, q), x, Stamped(Stripped(data), w.now), w.now, k, deadline);
    case _ =>
  }

  lemma StepKeepsFading(cfg: Config, w: World, s: Step, k: Key, deadline: real)
    requires FadesBy(cfg, w, k, deadline) && Enabled(cfg, w, s) && !(s.SetL1? && s.key == k)
    ensures FadesBy(cfg, Next(cfg, w, s), k, deadline)
  {
    var v := Next(cfg, w, s);
    forall p | p in v.l1 && k in v.l1[p].slots
      ensures v.l1[p].slots[k].entry.expiresAt <= deadline
    {
      StepKeepsLocalFading(cfg, w, s, k, deadline, p);
    }
    assert v.l2.Keys <= w.l2.Keys + if s.SetL2? then {s.write.key} else {};
  }

  lemma {:induction false} RunKeepsFading(cfg: Config, w: World, steps: seq<Step>, k: Key, deadline: real)
    requires FadesBy(cfg, w, k, deadline) && IsRun(cfg, w, steps) && NeverSets(steps, k)
    ensures FadesBy(cfg, After(cfg, w, steps), k, deadline)
    decreases |steps|
  {
    if steps != [] {
      StepKeepsFading(cfg, w, steps[0], k, deadline);
      assert NeverSets(steps[1..], k);
      RunKeepsFading(cfg, Next(cfg, w, steps[0]), steps[1..], k, deadline);
    }
  }

  /** After a successful second-level delete with no write of the key in flight and none later, no
      process returns anything for the key once one time to live has passed, plus the lag of a call
      if a read was in flight. */
  lemma InvalidationTakesEffect(cfg: Config, before: seq<Step>, k: Key, later: seq<Step>, s: Step)
    requires cfg.Valid() && IsRun(cfg, START, before)
    requires var w := Next(cfg, After(cfg, START, before), DeleteL2(k, true));
      && (forall x :: x in w.writes ==> x.key != k)
      && IsRun(cfg, w, later) && NeverSets(later, k)
      && Enabled(cfg, After(cfg, w, later), s)
    ensures var w := Next(cfg, After(cfg, START, before), DeleteL2(k, true));
      var slack := if exists r :: r in w.fetches && r.key == k then cfg.lag else 0.0;
      var end := After(cfg, w, later);
      end.now > w.now + slack + cfg.Ttl(k) ==>
        Returned(cfg, end, s).None? || Returned(cfg, end, s).value.0 != k
  {
    RunKeepsInv(cfg, START, before);
    var w0 := After(cfg, START, before);
    StepKeepsInv(cfg, w0, DeleteL2(k, true));
    var w := Next(cfg, w0, DeleteL2(k, true));
    var slack := if exists r :: r in w.fetches && r.key == k then cfg.lag else 0.0;
    assert FadesBy(cfg, w, k, w.now + slack + cfg.Ttl(k));
    RunKeepsFading(cfg, w, later, k, w.now + slack + cfg.Ttl(k));
  }

  /** An invalidation by one process does not reach the first level of another: a read there gets an
      answer exactly if that level has a live entry, and the answer is that entry. */
  lemma InvalidationLeavesOtherProcesses(cfg: Config, w: World, p: Proc, q: Proc, k: Key)
    requires p != q
    ensures var v := Next(cfg, Next(cfg, w, DeleteL1(q, k)), DeleteL2(k, true));
      var hit := LocalStore(w, p).Lookup(k, w.now);
      && Returned(cfg, v, LookupL1(p, k)) == (if hit.Some? then Some((k, hit.value)) else None)
      && Next(cfg, v, FetchL2(p, k)) == v
  {
  }

  /** A run that ends in such an answer: one process sets the value, another one invalidates it at once. */
  lemma InvalidatedIsStillReturned(cfg: Config, p: Proc, q: Proc, k: Key, data: Data)
    requires cfg.Valid() && cfg.maxEntries >= 1 && p != q
    ensures var value := Stamped(Stripped(data), 0.0);
      var steps := [SetL1(p, k, data)] + [SetL2(Write(k, value), true)] + [DeleteL1(q, k)] + [DeleteL2(k, true)];
      && IsRun(cfg, START, steps)
      && Returned(cfg, After(cfg, START, steps), LookupL1(p, k)) == Some((k, value))
  {
    var value := Stamped(Stripped(data), 0.0);
    var a := Next(cfg, START, SetL1(p, k, data));
    var b := Next(cfg, a, SetL2(Write(k, value), true));
    RunOfFour(cfg, START, SetL1(p, k, data), SetL2(Write(k, value), true), DeleteL1(q, k), DeleteL2(k, true));
    var s := LocalStore(b, p);
    assert s == StoreLocally(cfg, Store(map[], 0), k, value, 0.0);
    assert s.Lookup(k, 0.0) == Some(value);
    hide IsRun, After, StoreLocally;
    InvalidationLeavesOtherProcesses(cfg, b, p, q, k);
  }

  lemma RunOfFour(cfg: Config, w: World, s1: Step, s2: Step, s3: Step, s4: Step)
    requires Enabled(cfg, w, s1)
    requires var a := Next(cfg, w, s1); Enabled(cfg, a, s2)
    requires var b := Next(cfg, Next(cfg, w, s1), s2); Enabled(cfg, b, s3) && Enabled(cfg, Next(cfg, b, s3), s4)
    ensures IsRun(cfg, w, [s1] + [s2] + [s3] + [s4])
    ensures After(cfg, w, [s1] + [s2] + [s3] + [s4]) == Next(cfg, Next(cfg, Next(cfg, Next(cfg, w, s1), s2), s3), s4)
  {
    hide Enabled, Next;
    assert [] + [s1] == [s1];
    RunNext(cfg, w, [], s1);
    RunNext(cfg, w, [s1], s2);
    RunNext(cfg, w, [s1] + [s2], s3);
    RunNext(cfg, w, [s1] + [s2] + [s3], s4);
  }
}
