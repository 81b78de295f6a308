/** The event bus: listener lists kept sorted while listeners come and go, wildcard listeners,
    stopping, and listeners that are removed once they completed. */
module EventBus {
  import opened EventPattern
  import opened Outcomes
  import opened Registrations

  /** What `listen` was called with, as far as later calls can see it. */
  datatype LogEntry = Logged(event: string, reg: Registration)

  type Log = seq<LogEntry>

  /** What happens to registrations: a call of `listen`, a call of `forget`, the completion of one meant
      for once in a dispatch that then removes it, and a dispatch that fails, with the registrations meant
      for once that completed in it and were not removed. */
  datatype Change =
    | Listened(added: LogEntry)
    | Forgot(event: string, listener: Listener)
    | Completed(done: LogEntry)
    | Failed(lost: seq<LogEntry>)

  type History = seq<Change>

  /** What a listener does with an event: it may stop it, and it may raise. */
  datatype Behaviour = Behaviour(stops: bool, raises: bool)

  // ---- The registration log -------------------------------------------------

  /** The registrations for exactly this event, in order of registration. */
  function Exact(log: Log, event: string): Regs {
    if log == [] then []
    else
      var rest := Exact(log[1..], event);
      if log[0].event == event && !HasStar(event) then [log[0].reg] + rest else rest
  }

  /** The wildcard registrations, in order of registration. */
  function Wild(log: Log): Regs {
    if log == [] then []
    else
      var rest := Wild(log[1..]);
      if HasStar(log[0].event) then [log[0].reg] + rest else rest
  }

  function EntryOf(event: string, reg: Registration): LogEntry {
    Logged(if reg.pattern.Some? then reg.pattern.value else event, reg)
  }

  ghost predicate IsWellFormed(log: Log) {
    forall x :: x in log ==> x.reg.pattern == if HasStar(x.event) then Some(x.event) else None
  }

  function LogRemoveFirst(log: Log, x: LogEntry): Log {
    if log == [] then []
    else if log[0] == x then log[1..]
    else [log[0]] + LogRemoveFirst(log[1..], x)
  }

  predicate IsForgotten(x: LogEntry, event: string, listener: Listener) {
    x.reg.listener == listener && (x.event == event || HasStar(x.event))
  }

  /** `forget` drops the listener's registrations for the event, and all its wildcard registrations,
      whatever their patterns. */
  function LogForget(log: Log, event: string, listener: Listener): Log {
    if log == [] then []
    else
      var rest := LogForget(log[1..], event, listener);
      if IsForgotten(log[0], event, listener) then rest
      else [log[0]] + rest
  }

  function Changed(log: Log, change: Change): Log {
    match change
    case Listened(x) => log + [x]
    case Forgot(event, listener) => LogForget(log, event, listener)
    case Completed(x) => LogRemoveFirst(log, x)
    case Failed(_) => log
  }

  /** The registrations that survive a history, in order of registration. */
  function Surviving(history: History): Log {
    if history == [] then [] else Changed(Surviving(history[..|history| - 1]), history[|history| - 1])
  }

  /** A change that can happen to these registrations: only what is registered completes. */
  ghost predicate CanHappen(log: Log, change: Change) {
    match change
    case Completed(x) => x.reg.once && x in log
    case Failed(lost) => (forall x :: x in lost ==> x.reg.once) && multiset(lost) <= multiset(log)
    case _ => true
  }

  ghost predicate IsHistory(history: History) {
    forall i {:trigger history[i]} :: 0 <= i < |history| ==> CanHappen(Surviving(history[..i]), history[i])
  }

  function Lasting(log: Log): Log {
    if log == [] then []
    else if log[0].reg.once then Lasting(log[1..])
    else [log[0]] + Lasting(log[1..])
  }

  lemma {:induction false} LogAppend(log: Log, x: LogEntry)
    ensures forall e :: Exact(log + [x], e) == if x.event == e && !HasStar(e) then Exact(log, e) + [x.reg] else Exact(log, e)
    ensures Wild(log + [x]) == if HasStar(x.event) then Wild(log) + [x.reg] else Wild(log)
  {
    if log == [] {
      assert [x][1..] == [];
    } else {
      assert (log + [x])[1..] == log[1..] + [x];
      LogAppend(log[1..], x);
    }
  }

  lemma {:induction false} LogMembers(log: Log, event: string)
    requires IsWellFormed(log)
    ensures forall r :: r in Exact(log, event) ==> Logged(event, r) in log && r.pattern.None?
    ensures forall r :: r in Wild(log) ==> r.pattern.Some? && HasStar(r.pattern.value) && Logged(r.pattern.value, r) in log
  {
    if log != [] {
      assert log[0] in log;
      assert forall x :: x in log[1..] ==> x in log;
      LogMembers(log[1..], event);
    }
  }

  lemma {:induction false} RemovedExact(log: Log, x: LogEntry, e: string)
    ensures Exact(LogRemoveFirst(log, x), e) ==
            if x.event == e && !HasStar(e) then RemoveFirst(Exact(log, e), x.reg) else Exact(log, e)
  {
    if log != [] && log[0] != x {
      RemovedExact(log[1..], x, e);
      assert ([log[0]] + LogRemoveFirst(log[1..], x))[1..] == LogRemoveFirst(log[1..], x);
      RemoveFirstCons(log[0].reg, Exact(log[1..], e), x.reg);
    } else if log != [] {
      RemoveFirstCons(log[0].reg, Exact(log[1..], e), x.reg);
    }
  }

  lemma {:induction false} RemovedWild(log: Log, x: LogEntry)
    requires IsWellFormed(log)
    requires x.reg.pattern == if HasStar(x.event) then Some(x.event) else None
    ensures Wild(LogRemoveFirst(log, x)) == if HasStar(x.event) then RemoveFirst(Wild(log), x.reg) else Wild(log)
  {
    if log != [] {
      assert log[0] in log;
      RemoveFirstCons(log[0].reg, Wild(log[1..]), x.reg);
      if log[0] != x {
        assert forall y :: y in log[1..] ==> y in log;
        RemovedWild(log[1..], x);
        assert ([log[0]] + LogRemoveFirst(log[1..], x))[1..] == LogRemoveFirst(log[1..], x);
      }
    }
  }

  lemma {:induction false} RemovedBag(log: Log, x: LogEntry)
    ensures multiset(LogRemoveFirst(log, x)) == multiset(log) - multiset{x}
    ensures forall y :: y in LogRemoveFirst(log, x) ==> y in log
  {
    if log != [] {
      assert log == [log[0]] + log[1..];
      if log[0] != x {
        RemovedBag(log[1..], x);
      }
    }
  }

  lemma {:induction false} RemovedLasting(log: Log, x: LogEntry)
    requires x.reg.once
    ensures Lasting(LogRemoveFirst(log, x)) == Lasting(log)
  {
    if log != [] && log[0] != x {
      RemovedLasting(log[1..], x);
      assert ([log[0]] + LogRemoveFirst(log[1..], x))[1..] == LogRemoveFirst(log[1..], x);
    }
  }

  lemma {:induction false} ForgottenExact(log: Log, event: string, listener: Listener, e: string)
    ensures Exact(LogForget(log, event, listener), e) == if e == event then Dropping(Exact(log, e), listener) else Exact(log, e)
  {
    if log != [] {
      var rest := LogForget(log[1..], event, listener);
      ForgottenExact(log[1..], event, listener, e);
      assert ([log[0]] + rest)[1..] == rest;
      assert ([log[0].reg] + Exact(log[1..], e))[1..] == Exact(log[1..], e);
    }
  }

  lemma {:induction false} ForgottenWild(log: Log, event: string, listener: Listener)
    ensures Wild(LogForget(log, event, listener)) == Dropping(Wild(log), listener)
  {
    if log != [] {
      var rest := LogForget(log[1..], event, listener);
      ForgottenWild(log[1..], event, listener);
      assert ([log[0]] + rest)[1..] == rest;
      assert ([log[0].reg] + Wild(log[1..]))[1..] == Wild(log[1..]);
    }
  }

  lemma {:induction false} ForgottenBag(log: Log, event: string, listener: Listener)
    ensures multiset(LogForget(log, event, listener)) <= multiset(log)
    ensures forall y :: y in LogForget(log, event, listener) <==>
              y in log && !(y.reg.listener == listener && (y.event == event || HasStar(y.event)))
    ensures forall y :: multiset(LogForget(log, event, listener))[y] == if IsForgotten(y, event, listener) then 0 else multiset(log)[y]
  {
    if log != [] {
      assert log == [log[0]] + log[1..];
      ForgottenBag(log[1..], event, listener);
    }
  }

  // ---- Bags of registrations ----------------------------------------------------

  lemma {:induction false} InsertBag(sorted: Regs, r: Registration)
    ensures multiset(Insert(sorted, r)) == multiset(sorted) + multiset{r}
  {
    if sorted != [] {
      assert sorted == [sorted[0]] + sorted[1..];
      if sorted[0].priority >= r.priority {
        InsertBag(sorted[1..], r);
      }
    }
  }

  lemma {:induction false} SortBag(regs: Regs)
    ensures multiset(StableSort(regs)) == multiset(regs)
  {
    if regs != [] {
      var init := regs[..|regs| - 1];
      assert regs == init + [regs[|regs| - 1]];
      SortBag(init);
      InsertBag(StableSort(init), regs[|regs| - 1]);
    }
  }

  lemma {:induction false} FirstOccurrencesBag(regs: Regs)
    ensures multiset(FirstOccurrences(regs)) <= multiset(regs)
  {
    if regs != [] {
      assert regs == regs[..|regs| - 1] + [regs[|regs| - 1]];
      FirstOccurrencesBag(regs[..|regs| - 1]);
    }
  }

  lemma {:induction false} SelectedBag(regs: Regs, keep: Registration -> bool)
    ensures multiset(Selected(regs, keep)) <= multiset(regs)
  {
    if regs != [] {
      assert regs == [regs[0]] + regs[1..];
      SelectedBag(regs[1..], keep);
    }
  }

  lemma {:induction false} RemoveFirstBag(regs: Regs, r: Registration)
    ensures multiset(RemoveFirst(regs, r)) == multiset(regs) - multiset{r}
  {
    if regs != [] {
      assert regs == [regs[0]] + regs[1..];
      if regs[0] != r {
        RemoveFirstBag(regs[1..], r);
      }
    }
  }

  // ---- Dispatching ------------------------------------------------------------------

  function Keeps(event: string): Registration -> bool {
    (r: Registration) => r.pattern.Some? && MatchesPattern(event, r.pattern.value)
  }

  /** Exact registrations in order of registration, then the matching wildcards, one of each. */
  function Candidates(log: Log, event: string): Regs {
    Exact(log, event) + FirstOccurrences(Selected(Wild(log), Keeps(event)))
  }

  /** Reporting a failed listener asks for its name; without one the report itself fails. */
  predicate Crashes(r: Registration, b: Behaviour) {
    b.raises && !r.listener.named
  }

  /** The registrations to remove after the first n listeners ran: those that completed and were
      meant for once. */
  function CompletedOnce(ordered: Regs, script: nat -> Behaviour, n: nat): Regs
    requires n <= |ordered|
  {
    if n == 0 then []
    else
      var earlier := CompletedOnce(ordered, script, n - 1);
      if ordered[n - 1].once && !script(n - 1).raises then earlier + [ordered[n - 1]] else earlier
  }

  lemma {:induction false} CompletedOnceBag(ordered: Regs, script: nat -> Behaviour, n: nat)
    requires n <= |ordered|
    ensures multiset(CompletedOnce(ordered, script, n)) <= multiset(ordered[..n])
    ensures forall r :: r in CompletedOnce(ordered, script, n) ==> r.once
  {
    if n > 0 {
      assert ordered[..n] == ordered[..n - 1] + [ordered[n - 1]];
      CompletedOnceBag(ordered, script, n - 1);
    }
  }

  /** The listeners that ran are the ordered candidates up to the first that stops the event or brings
      the dispatch down. */
  ghost predicate IsRun(ordered: Regs, stopped: bool, script: nat -> Behaviour, ok: bool, ran: nat) {
    && ran <= |ordered|
    && (stopped ==> ran == 0)
    && (forall i: nat :: i + 1 < ran ==> !script(i).stops && !Crashes(ordered[i], script(i)))
    && (ok <==> ran == 0 || !Crashes(ordered[ran - 1], script(ran - 1)))
    && (ok && ran < |ordered| ==> if ran == 0 then stopped else script(ran - 1).stops)
  }

  lemma CandidatesBag(log: Log, event: string)
    ensures multiset(StableSort(Candidates(log, event))) <= Live(log, event)
  {
    SortBag(Candidates(log, event));
    FirstOccurrencesBag(Selected(Wild(log), Keeps(event)));
    SelectedBag(Wild(log), Keeps(event));
  }

  function GetList(m: map<string, Regs>, event: string): Regs {
    if event in m then m[event] else []
  }

  /** Every exact list is what sorting its surviving registrations gives. */
  ghost predicate ExactSorted(listeners: map<string, Regs>, log: Log) {
    forall e {:trigger GetList(listeners, e)} :: GetList(listeners, e) == StableSort(Exact(log, e))
  }

  /** The lists are what sorting the surviving registrations from scratch gives. */
  ghost predicate Reflects(listeners: map<string, Regs>, wildcards: Regs, log: Log) {
    IsWellFormed(log) && ExactSorted(listeners, log) && wildcards == StableSort(Wild(log))
  }

  lemma ListenedExact(listeners: map<string, Regs>, log: Log, event: string, reg: Registration)
    requires ExactSorted(listeners, log)
    ensures !HasStar(event) ==>
              ExactSorted(listeners[event := StableSort(GetList(listeners, event) + [reg])], log + [Logged(event, reg)])
    ensures HasStar(event) ==> ExactSorted(listeners, log + [Logged(event, reg)])
  {
    var x := Logged(event, reg);
    LogAppend(log, x);
    var after := if HasStar(event) then listeners else listeners[event := StableSort(GetList(listeners, event) + [reg])];
    forall e
      ensures GetList(after, e) == StableSort(Exact(log + [x], e))
    {
      assert GetList(listeners, e) == StableSort(Exact(log, e));
      SortOfSorted(Exact(log, e), [reg]);
    }
  }

  lemma ListenedWild(log: Log, event: string, reg: Registration)
    ensures Wild(log + [Logged(event, reg)]) == if HasStar(event) then Wild(log) + [reg] else Wild(log)
    ensures HasStar(event) ==> StableSort(StableSort(Wild(log)) + [reg]) == StableSort(Wild(log + [Logged(event, reg)]))
  {
    LogAppend(log, Logged(event, reg));
    SortOfSorted(Wild(log), [reg]);
  }

  lemma ListenedReflects(listeners: map<string, Regs>, wildcards: Regs, history: History, event: string, reg: Registration)
    requires IsHistory(history) && Reflects(listeners, wildcards, Surviving(history))
    requires reg.pattern == if HasStar(event) then Some(event) else None
    ensures var after := history + [Listened(Logged(event, reg))];
      && IsHistory(after)
      && if HasStar(event) then Reflects(listeners, StableSort(wildcards + [reg]), Surviving(after))
         else Reflects(listeners[event := StableSort(GetList(listeners, event) + [reg])], wildcards, Surviving(after))
  {
    HistoryNext(history, Listened(Logged(event, reg)));
    ListenedExact(listeners, Surviving(history), event, reg);
    ListenedWild(Surviving(history), event, reg);
  }

  lemma HistoryNext(history: History, change: Change)
    requires IsHistory(history) && CanHappen(Surviving(history), change)
    ensures IsHistory(history + [change]) && Surviving(history + [change]) == Changed(Surviving(history), change)
  {
    var after := history + [change];
    assert after[..|history|] == history;
    forall i | 0 <= i < |after|
      ensures CanHappen(Surviving(after[..i]), after[i])
    {
      if i < |history| {
        assert after[..i] == history[..i] && after[i] == history[i];
      }
    }
  }

  lemma DroppingOfSorted(regs: Regs, listener: Listener)
    ensures Dropping(StableSort(regs), listener) == StableSort(Dropping(regs, listener))
  {
    DroppingIsSelected(regs, listener);
    DroppingIsSelected(StableSort(regs), listener);
    SelectedOfSorted(regs, (r: Registration) => r.listener != listener);
  }

  lemma ForgottenReflects(listeners: map<string, Regs>, wildcards: Regs, history: History, event: string, listener: Listener)
    requires IsHistory(history) && Reflects(listeners, wildcards, Surviving(history))
    ensures var after := history + [Forgot(event, listener)];
      && IsHistory(after)
      && Reflects(if event in listeners then listeners[event := Dropping(listeners[event], listener)] else listeners,
                  Dropping(wildcards, listener), Surviving(after))
  {
    var log := Surviving(history);
    HistoryNext(history, Forgot(event, listener));
    ForgottenBag(log, event, listener);
    ForgottenWild(log, event, listener);
    DroppingOfSorted(Wild(log), listener);
    DroppingOfSorted(Exact(log, event), listener);
    var after := if event in listeners then listeners[event := Dropping(listeners[event], listener)] else listeners;
    forall e
      ensures GetList(after, e) == StableSort(Exact(LogForget(log, event, listener), e))
    {
      ForgottenExact(log, event, listener, e);
      assert GetList(listeners, e) == StableSort(Exact(log, e));
      if e == event && event !in listeners {
        SortBag(Exact(log, e));
      }
    }
  }

  class EventBus {
    var listeners: map<string, Regs>
    var wildcardListeners: Regs
    ghost var history: History

    constructor ()
      ensures Valid() && history == []
    {
      listeners, wildcardListeners, history := map[], [], [];
    }

    /** The lists are what sorting the surviving registrations from scratch gives. */
    ghost predicate Valid()
      reads this
    {
      IsHistory(history) && Reflects(listeners, wildcardListeners, Surviving(history))
    }

    method Listen(event: string, listener: Listener, priority: int, queueable: bool, queueName: string,
        asyncListener: bool, once: bool)
      requires Valid()
      modifies this
      ensures Valid()
      ensures history == old(history) + [Listened(Logged(event, Registration(listener, priority, queueable, queueName,
                asyncListener, once, if HasStar(event) then Some(event) else None)))]
    {
      hide Surviving, IsHistory, Reflects, StableSort, Insert, GetList;
      var reg := Registration(listener, priority, queueable, queueName, asyncListener, once, None);
      if HasStar(event) {
        reg := reg.(pattern := Some(event));
      }
      ListenedReflects(listeners, wildcardListeners, history, event, reg);
      if HasStar(event) {
        wildcardListeners := StableSort(wildcardListeners + [reg]);
      } else {
        listeners := listeners[event := StableSort(GetList(listeners, event) + [reg])];
      }
      history := history + [Listened(Logged(event, reg))];
    }

    method Forget(event: string, listener: Listener) returns (removed: bool)
      requires Valid()
      modifies this
      ensures Valid() && history == old(history) + [Forgot(event, listener)]
      ensures removed <==> exists x :: x in Surviving(old(history)) && x !in Surviving(history)
    {
      hide Surviving, IsHistory, Reflects, StableSort, Dropping, HasListener;
      ForgottenReflects(listeners, wildcardListeners, history, event, listener);
      RemovedMeansForgotten(listeners, wildcardListeners, history, event, listener);
      removed := false;
      if event in listeners {
        var left, any := RemoveListener(listeners[event], listener);
        listeners, removed := listeners[event := left], any;
      }
      var left, any := RemoveListener(wildcardListeners, listener);
      wildcardListeners, removed := left, removed || any;
      history := history + [Forgot(event, listener)];
    }

    /** The listeners of an event are what sorting the candidates from scratch gives. */
    method GetListenersForEvent(event: string) returns (found: Regs)
      requires Valid()
      ensures found == StableSort(Candidates(Surviving(history), event))
      ensures forall i: nat :: StaysRegistered(history, i) && IsFor(history[i].added, event) ==> history[i].added.reg in found
      ensures forall i: nat :: StaysRegistered(history, i) && history[i].added.event == "*" ==> history[i].added.reg in found
    {
      FoundByHistory(history, event);
      found := GetList(listeners, event);
      ghost var stages := ChoosingStages(Surviving(history), event);
      for i := 0 to |wildcardListeners|
        invariant found == stages[i]
      {
        var reg := wildcardListeners[i];
        assert stages[i + 1] == ChoosingStep(stages[i], reg, event);
        if reg !in found {
          if reg.pattern.Some? && reg.pattern.value != "" && MatchesPattern(event, reg.pattern.value) {
            found := found + [reg];
          }
        }
      }
      found := StableSort(found);
    }

    /** Runs the listeners in order until one stops the event, then removes those that completed and
        were meant for once. If a listener without a name fails, the dispatch fails with it, and those
        that completed before are not removed. */
    method Dispatch(event: string, stopped: bool, script: nat -> Behaviour) returns (ok: bool, ran: nat)
      requires Valid()
      modifies this
      ensures Valid()
      ensures IsDispatch(old(history), event, stopped, script, ok, ran, history)
    {
      hide Surviving, IsHistory, Reflects, Candidates, StableSort, Completions, CanHappen;
      var ordered := GetListenersForEvent(event);
      var toRemove;
      ok, ran, toRemove := RunListeners(ordered, stopped, script);
      if !ok {
        FailureIsHistory(listeners, wildcardListeners, history, event, script, ran);
        history := history + [Failed(Entries(event, toRemove))];
        return;
      }
      CompletionsAreHistory(listeners, wildcardListeners, history, event, script, ran);
      RemoveCompleted(event, toRemove);
    }

    method RemoveCompleted(event: string, toRemove: Regs)
      requires Valid() && IsHistory(history + Completions(event, toRemove))
      modifies this
      ensures Valid() && history == old(history) + Completions(event, toRemove)
    {
      hide Surviving, IsHistory, Reflects, CanHappen;
      for i := 0 to |toRemove|
        invariant Valid() && history == old(history) + Completions(event, toRemove[..i])
      {
        CompletionsNext(old(history), event, toRemove, i);
        ForgetRegistration(event, toRemove[i]);
      }
      assert toRemove[..|toRemove|] == toRemove;
    }

    method ForgetRegistration(event: string, reg: Registration)
      requires Valid() && IsHistory(history + [Completed(EntryOf(event, reg))])
      modifies this
      ensures Valid() && history == old(history) + [Completed(EntryOf(event, reg))]
    {
      hide Surviving, IsHistory, Reflects, RemoveFirst, EntryOf, CanHappen;
      CompletedReflects(listeners, wildcardListeners, history, event, reg);
      if event in listeners && reg in listeners[event] {
        listeners := listeners[event := RemoveFirst(listeners[event], reg)];
      }
      if reg in wildcardListeners {
        wildcardListeners := RemoveFirst(wildcardListeners, reg);
      }
      history := history + [Completed(EntryOf(event, reg))];
    }
  }

  /** The loop of a dispatch: how many listeners ran, and which of them completed and were meant for once. */
  method RunListeners(ordered: Regs, stopped: bool, script: nat -> Behaviour) returns (ok: bool, ran: nat, toRemove: Regs)
    ensures IsRun(ordered, stopped, script, ok, ran)
    ensures toRemove == CompletedOnce(ordered, script, ran)
  {
    var isStopped := stopped;
    ok, ran, toRemove := true, 0, [];
    for i := 0 to |ordered|
      invariant ran == i && (stopped ==> i == 0)
      invariant toRemove == CompletedOnce(ordered, script, i)
      invariant forall j: nat :: j + 1 < i ==> !script(j).stops
      invariant forall j: nat :: j < i ==> !Crashes(ordered[j], script(j))
      invariant isStopped == if i == 0 then stopped else script(i - 1).stops
    {
      if isStopped {
        break;
      }
      var reg, behaviour := ordered[i], script(i);
      isStopped := behaviour.stops;
      ran := i + 1;
      if behaviour.raises {
        if !reg.listener.named {
          return false, ran, toRemove;
        }
      } else if reg.once {
        toRemove := toRemove + [reg];
      }
    }
  }

  ghost predicate HasListener(regs: Regs, listener: Listener) {
    exists i :: 0 <= i < |regs| && regs[i].listener == listener
  }

  lemma RemovedMeansForgotten(listeners: map<string, Regs>, wildcards: Regs, history: History, event: string, listener: Listener)
    requires IsHistory(history) && Reflects(listeners, wildcards, Surviving(history))
    ensures (exists x :: x in Surviving(history) && x !in Surviving(history + [Forgot(event, listener)])) <==>
            (event in listeners && HasListener(listeners[event], listener)) || HasListener(wildcards, listener)
  {
    var log := Surviving(history);
    HistoryNext(history, Forgot(event, listener));
    assert GetList(listeners, event) == StableSort(Exact(log, event));
    SortBag(Exact(log, event));
    SortBag(Wild(log));
    ForgottenBag(log, event, listener);
    LogMembers(log, event);
    if x :| x in log && x !in LogForget(log, event, listener) {
      MemberOfLists(log, x);
      if HasStar(x.event) {
        assert x.reg in multiset(StableSort(Wild(log)));
      } else {
        assert x.reg in multiset(StableSort(Exact(log, event)));
      }
    }
    if event in listeners && HasListener(listeners[event], listener) {
      var i :| 0 <= i < |listeners[event]| && listeners[event][i].listener == listener;
      assert listeners[event][i] in multiset(Exact(log, event));
      assert Logged(event, listeners[event][i]) in log;
    }
    if HasListener(StableSort(Wild(log)), listener) {
      var i :| 0 <= i < |StableSort(Wild(log))| && StableSort(Wild(log))[i].listener == listener;
      var r := StableSort(Wild(log))[i];
      assert r in multiset(Wild(log));
      assert Logged(r.pattern.value, r) in log;
    }
  }

  lemma {:induction false} MemberOfLists(log: Log, x: LogEntry)
    requires x in log
    ensures if HasStar(x.event) then x.reg in Wild(log) else x.reg in Exact(log, x.event)
  {
    if log[0] != x {
      assert log == [log[0]] + log[1..];
      MemberOfLists(log[1..], x);
    }
  }

  /** Removes, for each registration of the listener in turn, the first equal one. */
  method RemoveListener(regs: Regs, listener: Listener) returns (left: Regs, any: bool)
    ensures left == Dropping(regs, listener)
    ensures any <==> HasListener(regs, listener)
  {
    ghost var stages := DroppingStages(regs, listener);
    left, any := regs, false;
    for i := 0 to |regs|
      invariant left == stages[i]
      invariant any <==> exists j :: 0 <= j < i && regs[j].listener == listener
    {
      assert stages[i + 1] == DroppingStep(stages[i], regs[i], listener);
      if regs[i].listener == listener {
        left, any := RemoveFirst(left, regs[i]), true;
      }
    }
  }

  ghost function DroppingStep(left: Regs, r: Registration, listener: Listener): Regs {
    if r.listener == listener then RemoveFirst(left, r) else left
  }

  lemma DroppingStages(regs: Regs, listener: Listener) returns (stages: seq<Regs>)
    ensures |stages| == |regs| + 1 && stages[0] == regs && stages[|regs|] == Dropping(regs, listener)
    ensures forall i :: 0 <= i < |regs| ==> stages[i + 1] == DroppingStep(stages[i], regs[i], listener)
  {
    stages := seq(|regs| + 1, i requires 0 <= i <= |regs| => Dropping(regs[..i], listener) + regs[i..]);
    forall i | 0 <= i < |regs|
      ensures stages[i + 1] == DroppingStep(stages[i], regs[i], listener)
    {
      DroppingNext(regs, i, listener);
    }
    assert regs[..|regs|] == regs;
  }

  lemma DroppingNext(regs: Regs, i: nat, listener: Listener)
    requires i < |regs|
    ensures var left := Dropping(regs[..i], listener) + regs[i..];
      Dropping(regs[..i + 1], listener) + regs[i + 1..] ==
      if regs[i].listener == listener then RemoveFirst(left, regs[i]) else left
  {
    hide Dropping, RemoveFirst;
    var init, r, rest := regs[..i], regs[i], regs[i + 1..];
    var kept := Dropping(init, listener);
    assert regs[..i + 1] == init + [r] && regs[i..] == [r] + rest;
    DroppingSnoc(init, r, listener);
    if r.listener == listener {
      DroppingMembers(init, listener);
      RemoveFirstAfter(kept, r, rest);
    } else {
      assert (kept + [r]) + rest == kept + ([r] + rest);
    }
  }

  lemma {:induction false} DroppingSnoc(init: Regs, last: Registration, listener: Listener)
    ensures Dropping(init + [last], listener) ==
            if last.listener == listener then Dropping(init, listener) else Dropping(init, listener) + [last]
  {
    if init == [] {
      assert [last][1..] == [];
    } else {
      assert (init + [last])[1..] == init[1..] + [last];
      DroppingSnoc(init[1..], last, listener);
    }
  }

  lemma {:induction false} DroppingMembers(regs: Regs, listener: Listener)
    ensures forall r :: r in Dropping(regs, listener) <==> r in regs && r.listener != listener
  {
    if regs != [] {
      assert regs == [regs[0]] + regs[1..];
      DroppingMembers(regs[1..], listener);
    }
  }

  lemma {:induction false} RemoveFirstAfter(a: Regs, r: Registration, b: Regs)
    requires r !in a
    ensures RemoveFirst(a + ([r] + b), r) == a + b
  {
    if a == [] {
      assert a + ([r] + b) == [r] + b && ([r] + b)[1..] == b;
    } else {
      assert (a + ([r] + b))[1..] == a[1..] + ([r] + b);
      RemoveFirstAfter(a[1..], r, b);
    }
  }

  // ---- Choosing the listeners -----------------------------------------------------------

  ghost function ChoosingStep(found: Regs, reg: Registration, event: string): Regs {
    if reg !in found && Keeps(event)(reg) then found + [reg] else found
  }

  /** Walking over the sorted wildcards, from the exact list to all candidates. */
  lemma ChoosingStages(log: Log, event: string) returns (stages: seq<Regs>)
    requires IsWellFormed(log)
    ensures var wild := StableSort(Wild(log));
      && |stages| == |wild| + 1 && stages[0] == StableSort(Exact(log, event))
      && StableSort(stages[|wild|]) == StableSort(Candidates(log, event))
      && (forall r :: r in wild ==> r.pattern.Some? && r.pattern.value != "")
      && forall i :: 0 <= i < |wild| ==> stages[i + 1] == ChoosingStep(stages[i], wild[i], event)
  {
    var wild, exact := StableSort(Wild(log)), StableSort(Exact(log, event));
    stages := seq(|wild| + 1, i requires 0 <= i <= |wild| => exact + FirstOccurrences(Selected(wild[..i], Keeps(event))));
    assert wild[..|wild|] == wild;
    SortOfChoice(Exact(log, event), Wild(log), Keeps(event));
    LogMembers(log, event);
    SortBag(Exact(log, event));
    SortBag(Wild(log));
    forall r | r in wild
      ensures r in Wild(log) && r !in exact
    {
      SortMember(Wild(log), r);
      SortMember(Exact(log, event), r);
    }
    hide StableSort, Exact, Wild, FirstOccurrences, Selected, ChoosingStep;
    forall i | 0 <= i < |wild|
      ensures stages[i + 1] == ChoosingStep(stages[i], wild[i], event)
    {
      ChoosingNext(exact, wild, i, event);
    }
  }

  lemma ChoosingNext(exact: Regs, wild: Regs, i: nat, event: string)
    requires i < |wild| && wild[i] !in exact
    ensures exact + FirstOccurrences(Selected(wild[..i + 1], Keeps(event)))
            == ChoosingStep(exact + FirstOccurrences(Selected(wild[..i], Keeps(event))), wild[i], event)
  {
    var chosen := Selected(wild[..i], Keeps(event));
    assert wild[..i + 1] == wild[..i] + [wild[i]];
    SelectedAppend(wild[..i], [wild[i]], Keeps(event));
    assert [wild[i]][1..] == [];
    FirstOccurrencesSnoc(chosen, wild[i]);
    FirstOccurrencesMember(chosen);
    assert chosen + [] == chosen;
    var first := FirstOccurrences(chosen);
    assert exact + (first + [wild[i]]) == (exact + first) + [wild[i]];
  }

  // ---- Removing what completed --------------------------------------------------------------

  ghost function Completions(event: string, done: Regs): History {
    seq(|done|, i requires 0 <= i < |done| => Completed(EntryOf(event, done[i])))
  }

  ghost function Entries(event: string, done: Regs): seq<LogEntry> {
    seq(|done|, i requires 0 <= i < |done| => EntryOf(event, done[i]))
  }

  /** What a dispatch does to a history: which listeners ran, which completions were removed with their
      registrations, and which were not because the dispatch failed. */
  ghost predicate IsDispatch(history: History, event: string, stopped: bool, script: nat -> Behaviour, ok: bool, ran: nat,
      after: History) {
    var ordered := StableSort(Candidates(Surviving(history), event));
    && IsRun(ordered, stopped, script, ok, ran)
    && var done := CompletedOnce(ordered, script, ran);
       after == history + if ok then Completions(event, done) else [Failed(Entries(event, done))]
  }

  lemma PrefixBag(a: Regs, b: Regs)
    requires a <= b
    ensures multiset(a) <= multiset(b)
  {
    assert b == a + b[|a|..];
  }

  /** The registrations a dispatch of the event may run. */
  ghost function Live(log: Log, event: string): multiset<Registration> {
    multiset(Exact(log, event)) + multiset(Wild(log))
  }

  lemma EntryInLists(log: Log, event: string, reg: Registration)
    requires IsWellFormed(log) && EntryOf(event, reg) in log
    ensures reg in Exact(log, event) <==> reg.pattern.None?
    ensures reg in Wild(log) <==> reg.pattern.Some?
    ensures HasStar(EntryOf(event, reg).event) <==> reg.pattern.Some?
  {
    LogMembers(log, event);
    MemberOfLists(log, EntryOf(event, reg));
  }

  /** Removing a registration from the lists is removing its entry from the log. */
  lemma CompletedReflects(listeners: map<string, Regs>, wildcards: Regs, history: History, event: string, reg: Registration)
    requires IsHistory(history + [Completed(EntryOf(event, reg))]) && Reflects(listeners, wildcards, Surviving(history))
    ensures Reflects(if event in listeners && reg in listeners[event] then listeners[event := RemoveFirst(listeners[event], reg)] else listeners,
                     if reg in wildcards then RemoveFirst(wildcards, reg) else wildcards,
                     Surviving(history + [Completed(EntryOf(event, reg))]))
  {
    var log, x := Surviving(history), EntryOf(event, reg);
    var after := history + [Completed(x)];
    assert after[..|history|] == history && after[|history|].Completed?;
    EntryInLists(log, event, reg);
    SortMember(Exact(log, event), reg);
    SortMember(Wild(log), reg);
    RemovedWild(log, x);
    RemovedBag(log, x);
    RemoveFirstOfSorted(Wild(log), reg);
    assert GetList(listeners, event) == StableSort(Exact(log, event));
    var exact := if event in listeners && reg in listeners[event] then listeners[event := RemoveFirst(listeners[event], reg)] else listeners;
    forall e
      ensures GetList(exact, e) == StableSort(Exact(LogRemoveFirst(log, x), e))
    {
      assert GetList(listeners, e) == StableSort(Exact(log, e));
      RemovedExact(log, x, e);
      RemoveFirstOfSorted(Exact(log, e), reg);
    }
  }

  lemma CompletionsNext(history: History, event: string, done: Regs, i: nat)
    requires IsHistory(history + Completions(event, done)) && i < |done|
    ensures history + Completions(event, done[..i + 1]) == history + Completions(event, done[..i]) + [Completed(EntryOf(event, done[i]))]
    ensures IsHistory(history + Completions(event, done[..i + 1]))
  {
    hide IsHistory, EntryOf;
    var all, some := history + Completions(event, done), history + Completions(event, done[..i + 1]);
    assert some == all[..|some|];
    HistoryTake(all, |some|);
  }

  lemma HistoryTake(history: History, n: nat)
    requires IsHistory(history) && n <= |history|
    ensures IsHistory(history[..n])
  {
    hide Surviving;
    forall j | 0 <= j < n
      ensures CanHappen(Surviving(history[..n][..j]), history[j])
    {
      assert history[..n][..j] == history[..j];
    }
  }

  /** What a dispatch removes was registered: a history stays one. */
  lemma {:induction false} RemovalsAreHistory(history: History, event: string, done: Regs)
    requires IsHistory(history) && IsWellFormed(Surviving(history)) && (forall r :: r in done ==> r.once)
    requires multiset(done) <= Live(Surviving(history), event)
    ensures IsHistory(history + Completions(event, done))
    decreases |done|
  {
    if done == [] {
      assert history + Completions(event, done) == history;
    } else {
      hide Live, Surviving, IsHistory, IsWellFormed, Completions;
      var next := history + [Completed(EntryOf(event, done[0]))];
      assert done == [done[0]] + done[1..];
      assert done[0] in multiset(done);
      RemovalStep(history, event, done[0]);
      RemovalsAreHistory(next, event, done[1..]);
      CompletionsCons(history, event, done);
    }
  }

  lemma CompletionsCons(history: History, event: string, done: Regs)
    requires done != []
    ensures history + [Completed(EntryOf(event, done[0]))] + Completions(event, done[1..]) == history + Completions(event, done)
  {
  }

  lemma RemovalStep(history: History, event: string, reg: Registration)
    requires IsHistory(history) && IsWellFormed(Surviving(history)) && reg.once && reg in Live(Surviving(history), event)
    ensures var next := history + [Completed(EntryOf(event, reg))];
      && IsHistory(next) && IsWellFormed(Surviving(next))
      && Live(Surviving(next), event) == Live(Surviving(history), event) - multiset{reg}
  {
    hide Live, Surviving, IsHistory, IsWellFormed;
    LiveEntry(Surviving(history), event, reg);
    HistoryNext(history, Completed(EntryOf(event, reg)));
    RemovedLive(Surviving(history), event, reg);
  }

  lemma LiveEntry(log: Log, event: string, reg: Registration)
    requires IsWellFormed(log) && reg in Live(log, event)
    ensures EntryOf(event, reg) in log
  {
    LogMembers(log, event);
  }

  lemma RemovedLive(log: Log, event: string, reg: Registration)
    requires IsWellFormed(log) && EntryOf(event, reg) in log
    ensures Live(LogRemoveFirst(log, EntryOf(event, reg)), event) == Live(log, event) - multiset{reg}
    ensures IsWellFormed(LogRemoveFirst(log, EntryOf(event, reg)))
  {
    var x := EntryOf(event, reg);
    EntryInLists(log, event, reg);
    RemovedWild(log, x);
    RemovedExact(log, x, event);
    RemovedBag(log, x);
    hide Exact, Wild, RemoveFirst, LogRemoveFirst;
    if reg.pattern.None? {
      RemoveFirstBag(Exact(log, event), reg);
      assert reg in multiset(Exact(log, event));
    } else {
      RemoveFirstBag(Wild(log), reg);
      assert reg in multiset(Wild(log));
    }
  }

  lemma CompletionsAreHistory(listeners: map<string, Regs>, wildcards: Regs, history: History, event: string,
      script: nat -> Behaviour, n: nat)
    requires IsHistory(history) && Reflects(listeners, wildcards, Surviving(history))
    requires n <= |StableSort(Candidates(Surviving(history), event))|
    ensures IsHistory(history + Completions(event, CompletedOnce(StableSort(Candidates(Surviving(history), event)), script, n)))
  {
    var ordered := StableSort(Candidates(Surviving(history), event));
    CompletedOnceBag(ordered, script, n);
    CandidatesBag(Surviving(history), event);
    PrefixBag(ordered[..n], ordered);
    RemovalsAreHistory(history, event, CompletedOnce(ordered, script, n));
  }

  /** What completes in a dispatch that fails was registered: a history stays one. */
  lemma FailureIsHistory(listeners: map<string, Regs>, wildcards: Regs, history: History, event: string,
      script: nat -> Behaviour, n: nat)
    requires IsHistory(history) && Reflects(listeners, wildcards, Surviving(history))
    requires n <= |StableSort(Candidates(Surviving(history), event))|
    ensures var done := CompletedOnce(StableSort(Candidates(Surviving(history), event)), script, n);
      var after := history + [Failed(Entries(event, done))];
      IsHistory(after) && Surviving(after) == Surviving(history)
  {
    hide IsHistory, Reflects, Surviving, Completions, Entries, Candidates, StableSort;
    var done := CompletedOnce(StableSort(Candidates(Surviving(history), event)), script, n);
    CompletionsAreHistory(listeners, wildcards, history, event, script, n);
    RemovalsBag(history, event, done);
    HistoryNext(history, Failed(Entries(event, done)));
  }

  /** Removals take exactly their entries, all meant for once, from the log. */
  lemma {:induction false} RemovalsBag(history: History, event: string, done: Regs)
    requires IsHistory(history + Completions(event, done))
    ensures multiset(Surviving(history + Completions(event, done))) + multiset(Entries(event, done)) == multiset(Surviving(history))
    ensures forall x :: x in Entries(event, done) ==> x.reg.once
    decreases |done|
  {
    if done == [] {
      assert history + Completions(event, done) == history;
    } else {
      hide IsHistory, Surviving, Completions, EntryOf, Entries;
      var n := |done| - 1;
      var x, before := EntryOf(event, done[n]), history + Completions(event, done[..n]);
      CompletionsNext(history, event, done, n);
      assert done[..n + 1] == done;
      assert (before + [Completed(x)])[..|before|] == before;
      HistoryTake(before + [Completed(x)], |before|);
      RemovalsBag(history, event, done[..n]);
      RemovalBag(before, x);
      EntriesNext(event, done, n);
    }
  }

  lemma EntriesNext(event: string, done: Regs, n: nat)
    requires |done| == n + 1
    ensures Entries(event, done) == Entries(event, done[..n]) + [EntryOf(event, done[n])]
  {
  }

  lemma RemovalBag(before: History, x: LogEntry)
    requires IsHistory(before + [Completed(x)])
    ensures x.reg.once && multiset(Surviving(before + [Completed(x)])) + multiset{x} == multiset(Surviving(before))
  {
    var after := before + [Completed(x)];
    assert after[..|before|] == before && CanHappen(Surviving(before), after[|before|]);
    RemovedBag(Surviving(before), x);
    assert x in multiset(Surviving(before));
  }

  // ---- Which listeners are found ------------------------------------------------------------

  lemma FoundByHistory(history: History, event: string)
    requires IsWellFormed(Surviving(history))
    ensures var found := StableSort(Candidates(Surviving(history), event));
      && (forall i: nat :: StaysRegistered(history, i) && IsFor(history[i].added, event) ==> history[i].added.reg in found)
      && forall i: nat :: StaysRegistered(history, i) && history[i].added.event == "*" ==> history[i].added.reg in found
  {
    hide StableSort, Candidates, Surviving, IsWellFormed;
    forall i: nat | StaysRegistered(history, i) && IsFor(history[i].added, event)
      ensures history[i].added.reg in StableSort(Candidates(Surviving(history), event))
    {
      RegisteredIsFound(history, i, event);
    }
  }

  lemma {:induction false} ExactCount(log: Log, event: string, r: Registration)
    ensures multiset(Exact(log, event))[r] == if HasStar(event) then 0 else multiset(log)[Logged(event, r)]
  {
    if log != [] {
      assert log == [log[0]] + log[1..];
      ExactCount(log[1..], event, r);
    }
  }

  /** An event without stars finds a registration for exactly it as often as it is registered, and any
      event finds a wildcard registration once if its pattern matches. */
  lemma FoundExactly(log: Log, event: string, r: Registration)
    requires IsWellFormed(log)
    ensures multiset(StableSort(Candidates(log, event)))[r] ==
            if r.pattern.None? then (if '*' in event then 0 else multiset(log)[Logged(event, r)])
            else if Logged(r.pattern.value, r) in log && MatchesPattern(event, r.pattern.value) then 1
            else 0
  {
    var chosen := Selected(Wild(log), Keeps(event));
    SortBag(Candidates(log, event));
    LogMembers(log, event);
    ExactCount(log, event, r);
    FirstOccurrencesCount(chosen);
    SelectedMember(Wild(log), Keeps(event));
    FoundParts(log, event, r);
    if r.pattern.Some? && Logged(r.pattern.value, r) in log {
      MemberOfLists(log, Logged(r.pattern.value, r));
    }
  }

  lemma FoundParts(log: Log, event: string, r: Registration)
    requires IsWellFormed(log)
    ensures multiset(Candidates(log, event))[r] ==
            multiset(Exact(log, event))[r] + multiset(FirstOccurrences(Selected(Wild(log), Keeps(event))))[r]
    ensures r.pattern.Some? ==> multiset(Exact(log, event))[r] == 0
  {
    LogMembers(log, event);
    assert r in multiset(Exact(log, event)) <==> r in Exact(log, event);
  }

  /** After change i, which registers it, nothing removes the registration. */
  ghost predicate StaysRegistered(history: History, i: nat) {
    && i < |history| && history[i].Listened?
    && forall j :: i < j < |history| ==>
         match history[j]
         case Completed(done) => done != history[i].added
         case Forgot(event, listener) =>
           listener != history[i].added.reg.listener || (event != history[i].added.event && '*' !in history[i].added.event)
         case _ => true
  }

  /** What was registered and not removed since is registered. */
  lemma {:induction false} StaysSurviving(history: History, i: nat)
    requires StaysRegistered(history, i)
    ensures history[i].added in Surviving(history)
  {
    var n := |history| - 1;
    if i < n {
      var init := history[..n];
      assert forall j :: i < j < n ==> init[j] == history[j];
      StaysSurviving(init, i);
      StaysOnChange(Surviving(init), history[n], history[i].added);
    }
  }

  lemma StaysOnChange(log: Log, change: Change, x: LogEntry)
    requires x in log && change != Completed(x)
    requires change.Forgot? ==> !IsForgotten(x, change.event, change.listener)
    ensures x in Changed(log, change)
  {
    match change {
      case Forgot(event, listener) => ForgottenBag(log, event, listener);
      case Completed(y) =>
        RemovedBag(log, y);
        assert x in multiset(log) && x in multiset(LogRemoveFirst(log, y));
      case _ =>
    }
  }

  /** What is registered was registered at some time and not forgotten since. */
  lemma {:induction false} SurvivorWasRegistered(history: History, x: LogEntry) returns (i: nat)
    requires x in Surviving(history)
    ensures i < |history| && history[i] == Listened(x)
    ensures forall j :: i < j < |history| && history[j].Forgot? ==>
              history[j].listener != x.reg.listener || (history[j].event != x.event && '*' !in x.event)
  {
    var n := |history| - 1;
    var init := history[..n];
    if x in Surviving(init) && !(history[n].Forgot? && IsForgotten(x, history[n].event, history[n].listener)) {
      i := SurvivorWasRegistered(init, x);
      assert forall j :: i < j < n ==> init[j] == history[j];
    } else {
      i := n;
      ComesFromListening(Surviving(init), history[n], x);
    }
  }

  lemma ComesFromListening(log: Log, change: Change, x: LogEntry)
    requires x in Changed(log, change)
    requires x !in log || (change.Forgot? && IsForgotten(x, change.event, change.listener))
    ensures change == Listened(x)
  {
    match change {
      case Forgot(event, listener) => ForgottenBag(log, event, listener);
      case Completed(y) => RemovedBag(log, y);
      case _ =>
    }
  }

  /** A registration that no later call removed is found by every event that it is for. */
  ghost predicate IsFor(x: LogEntry, event: string) {
    if '*' in x.event then MatchesPattern(event, x.event) else event == x.event
  }

  lemma RegisteredIsFound(history: History, i: nat, event: string)
    requires StaysRegistered(history, i) && IsWellFormed(Surviving(history)) && IsFor(history[i].added, event)
    ensures history[i].added.reg in StableSort(Candidates(Surviving(history), event))
  {
    var x := history[i].added;
    StaysSurviving(history, i);
    FoundExactly(Surviving(history), event, x.reg);
    assert x == Logged(x.event, x.reg);
    assert x in multiset(Surviving(history));
  }

  lemma SortMember(regs: Regs, r: Registration)
    ensures r in StableSort(regs) <==> r in regs
  {
    SortBag(regs);
    assert r in StableSort(regs) <==> r in multiset(StableSort(regs));
  }

  lemma {:induction false} ExactMeansNoStar(log: Log, event: string)
    ensures HasStar(event) ==> Exact(log, event) == []
  {
    if log != [] {
      ExactMeansNoStar(log[1..], event);
    }
  }

  // ---- Over whole runs -------------------------------------------------------------------------

  ghost function Times(history: History, change: Change): nat {
    if history == [] then 0
    else Times(history[..|history| - 1], change) + if history[|history| - 1] == change then 1 else 0
  }

  /** How often x completes in this change. */
  ghost function Completing(change: Change, x: LogEntry): nat {
    match change
    case Completed(y) => if y == x then 1 else 0
    case Failed(lost) => multiset(lost)[x]
    case _ => 0
  }

  ghost function TimesCompleted(history: History, x: LogEntry): nat {
    if history == [] then 0
    else TimesCompleted(history[..|history| - 1], x) + Completing(history[|history| - 1], x)
  }

  /** The completions of x in dispatches that then failed. */
  ghost function TimesLost(history: History, x: LogEntry): nat {
    if history == [] then 0
    else
      var last := history[|history| - 1];
      TimesLost(history[..|history| - 1], x) + if last.Failed? then Completing(last, x) else 0
  }

  /** How many registrations x this change forgets. */
  ghost function Forgetting(log: Log, change: Change, x: LogEntry): nat {
    match change
    case Forgot(event, listener) => if IsForgotten(x, event, listener) then multiset(log)[x] else 0
    case _ => 0
  }

  ghost function TimesForgotten(history: History, x: LogEntry): nat {
    if history == [] then 0
    else
      var before := history[..|history| - 1];
      TimesForgotten(before, x) + Forgetting(Surviving(before), history[|history| - 1], x)
  }

  /** Every completion uses up a registration of its own, except those in dispatches that fail: what was
      registered completed, was forgotten or survives. */
  lemma {:induction false} CompletionsAreConserved(history: History, x: LogEntry)
    requires IsHistory(history)
    ensures TimesCompleted(history, x) + TimesForgotten(history, x) + multiset(Surviving(history))[x]
            == Times(history, Listened(x)) + TimesLost(history, x)
  {
    if history != [] {
      var before, change := history[..|history| - 1], history[|history| - 1];
      HistoryTake(history, |before|);
      CompletionsAreConserved(before, x);
      assert CanHappen(Surviving(history[..|history| - 1]), history[|history| - 1]);
      CountAfter(Surviving(before), change, x);
    }
  }

  /** x is never registered a second time while it is registered. */
  ghost predicate IsSingle(history: History, x: LogEntry) {
    forall i {:trigger history[i]} :: 0 <= i < |history| && history[i] == Listened(x) ==> x !in Surviving(history[..i])
  }

  /** The completions of x since it was last registered. */
  ghost function Since(history: History, x: LogEntry): nat {
    if history == [] || history[|history| - 1] == Listened(x) then 0
    else Since(history[..|history| - 1], x) + Completing(history[|history| - 1], x)
  }

  ghost predicate AtMostOnce(history: History, x: LogEntry) {
    forall n {:trigger history[..n]} :: 0 <= n <= |history| ==> Since(history[..n], x) <= 1
  }

  /** x completed in a dispatch that failed, and completes again without being registered again. */
  ghost predicate RunsAgain(history: History, x: LogEntry, i: nat, j: nat) {
    && i < j < |history|
    && history[i].Failed? && x in history[i].lost && Completing(history[j], x) > 0
    && forall k :: i < k < j ==> history[k] != Listened(x)
  }

  /** Each registration of x completes at most once exactly if x never completes again after it completed
      in a dispatch that failed, that is, reached a failing listener without a name after x. */
  lemma CompletesAtMostOnceExactly(history: History, x: LogEntry)
    requires IsHistory(history) && IsSingle(history, x)
    ensures AtMostOnce(history, x) <==> !exists i, j :: RunsAgain(history, x, i, j)
  {
    if i, j :| RunsAgain(history, x, i, j) {
      AgainCounts(history, x, i, j);
      assert Since(history[..j + 1], x) > 1;
    }
    if n :| 0 <= n <= |history| && Since(history[..n], x) > 1 {
      AgainExists(history, x, n);
    }
  }

  lemma AgainCounts(history: History, x: LogEntry, i: nat, j: nat)
    requires RunsAgain(history, x, i, j)
    ensures Since(history[..j + 1], x) > 1
  {
    assert history[..i + 1][..i] == history[..i] && history[..j + 1][..j] == history[..j];
    SinceGrows(history, x, i + 1, j);
  }

  lemma {:induction false} SinceGrows(history: History, x: LogEntry, i: nat, j: nat)
    requires i <= j <= |history| && forall k :: i <= k < j ==> history[k] != Listened(x)
    ensures Since(history[..i], x) <= Since(history[..j], x)
  {
    if i < j {
      SinceGrows(history, x, i, j - 1);
      assert history[..j][..j - 1] == history[..j - 1];
    }
  }

  /** At the first second completion of a registration, the first one was in a dispatch that failed. */
  lemma {:induction false} AgainExists(history: History, x: LogEntry, n: nat)
    requires IsHistory(history) && IsSingle(history, x) && n <= |history| && Since(history[..n], x) > 1
    ensures exists i, j :: RunsAgain(history, x, i, j)
  {
    var m := n - 1;
    assert history[..n][..m] == history[..m];
    if Since(history[..m], x) > 1 {
      AgainExists(history, x, m);
    } else {
      CompletesSingly(history, m, x);
      hide IsHistory, IsSingle, Surviving;
      var i := LastCompletion(history, x, m);
      assert RunsAgain(history, x, i, m);
    }
  }

  lemma {:induction false} AtMostOneSurvives(history: History, x: LogEntry, n: nat)
    requires IsHistory(history) && IsSingle(history, x) && n <= |history|
    ensures multiset(Surviving(history[..n]))[x] <= 1
  {
    if n > 0 {
      AtMostOneSurvives(history, x, n - 1);
      CountNext(history, n - 1, x);
    }
  }

  lemma CountNext(history: History, m: nat, x: LogEntry)
    requires IsHistory(history) && m < |history|
    ensures CanHappen(Surviving(history[..m]), history[m])
    ensures multiset(Surviving(history[..m + 1]))[x] + (if history[m] == Completed(x) then 1 else 0)
            <= multiset(Surviving(history[..m]))[x] + if history[m] == Listened(x) then 1 else 0
  {
    assert history[..m + 1][..m] == history[..m];
    CountAfter(Surviving(history[..m]), history[m], x);
  }

  lemma CompletesSingly(history: History, m: nat, x: LogEntry)
    requires IsHistory(history) && IsSingle(history, x) && m < |history|
    ensures Completing(history[m], x) <= 1
    ensures Completing(history[m], x) > 0 ==> x in Surviving(history[..m])
  {
    AtMostOneSurvives(history, x, m);
    CountNext(history, m, x);
    hide IsHistory, IsSingle, Surviving;
    assert x in multiset(Surviving(history[..m])) <==> x in Surviving(history[..m]);
  }

  lemma SinceNothing(x: LogEntry)
    ensures Since([], x) == 0
  {
  }

  lemma SinceNext(history: History, m: nat, x: LogEntry)
    requires m < |history|
    ensures Since(history[..m + 1], x) == if history[m] == Listened(x) then 0 else Since(history[..m], x) + Completing(history[m], x)
  {
    assert history[..m + 1][..m] == history[..m];
  }

  lemma StillRegistered(history: History, m: nat, x: LogEntry)
    requires IsHistory(history) && IsSingle(history, x) && m < |history|
    requires x in Surviving(history[..m + 1]) && history[m] != Listened(x)
    ensures x in Surviving(history[..m])
    ensures Completing(history[m], x) > 0 ==> history[m].Failed? && x in history[m].lost
  {
    AtMostOneSurvives(history, x, m);
    CountNext(history, m, x);
    hide IsHistory, IsSingle, Surviving, CanHappen;
    assert x in multiset(Surviving(history[..m + 1]));
    assert x in multiset(Surviving(history[..m]));
  }

  /** If x completed since it was registered and is still registered, it completed in a dispatch that
      failed. */
  lemma {:induction false} LastCompletion(history: History, x: LogEntry, n: nat) returns (i: nat)
    requires IsHistory(history) && IsSingle(history, x) && n <= |history|
    requires Since(history[..n], x) > 0 && x in Surviving(history[..n])
    ensures i < n && history[i].Failed? && x in history[i].lost && forall k :: i < k < n ==> history[k] != Listened(x)
  {
    hide Surviving, IsHistory, IsSingle, Since, Completing;
    SinceNothing(x);
    assert history[..0] == [];
    var m := n - 1;
    SinceNext(history, m, x);
    StillRegistered(history, m, x);
    if Completing(history[m], x) > 0 {
      i := m;
    } else {
      i := LastCompletion(history, x, m);
    }
  }

  /** A registration completes in a dispatch exactly if it is meant for once and one of the listeners that
      ran is it and did not raise. */
  lemma {:induction false} CompletesExactly(ordered: Regs, script: nat -> Behaviour, n: nat, r: Registration)
    requires n <= |ordered|
    ensures r in CompletedOnce(ordered, script, n) <==>
              r.once && exists i: nat :: i < n && ordered[i] == r && !script(i).raises
  {
    if n > 0 {
      CompletesExactly(ordered, script, n - 1, r);
    }
  }

  lemma CountAfter(log: Log, change: Change, x: LogEntry)
    requires CanHappen(log, change)
    ensures multiset(Changed(log, change))[x] + (if change == Completed(x) then 1 else 0) + Forgetting(log, change, x)
            == multiset(log)[x] + if change == Listened(x) then 1 else 0
  {
    match change {
      case Listened(y) => {}
      case Forgot(event, listener) => ForgottenBag(log, event, listener);
      case Completed(y) => RemovedBag(log, y);
      case Failed(_) => {}
    }
  }

  /** The registrations that are not meant for once survive every dispatch, in order. */
  lemma {:induction false} CompletionsKeepLasting(history: History, event: string, done: Regs)
    requires IsHistory(history + Completions(event, done))
    ensures Lasting(Surviving(history + Completions(event, done))) == Lasting(Surviving(history))
    decreases |done|
  {
    var after := history + Completions(event, done);
    if done == [] {
      assert after == history;
    } else {
      var n := |done| - 1;
      CompletionsNext(history, event, done, n);
      assert done[..n + 1] == done;
      var before := history + Completions(event, done[..n]);
      assert after[..|after| - 1] == before && after[|after| - 1] == Completed(EntryOf(event, done[n]));
      HistoryTake(after, |before|);
      CompletionsKeepLasting(history, event, done[..n]);
      assert after[|before|].Completed?;
      RemovedLasting(Surviving(before), EntryOf(event, done[n]));
    }
  }

  /** Listener i runs and fails without a name to report. */
  ghost predicate ReachesCrash(ordered: Regs, script: nat -> Behaviour, i: nat) {
    && i < |ordered| && Crashes(ordered[i], script(i))
    && forall j: nat :: j < i ==> !script(j).stops && !Crashes(ordered[j], script(j))
  }

  /** Where r ran among the first n, was meant for once and did not raise. */
  ghost function Places(ordered: Regs, script: nat -> Behaviour, n: nat, r: Registration): set<nat>
    requires n <= |ordered|
  {
    set i: nat | i < n && ordered[i] == r && r.once && !script(i).raises
  }

  /** Equal registrations for once are collected once for each of them that ran and did not raise. */
  lemma {:induction false} CompletedOnceCount(ordered: Regs, script: nat -> Behaviour, n: nat, r: Registration)
    requires n <= |ordered|
    ensures multiset(CompletedOnce(ordered, script, n))[r] == |Places(ordered, script, n, r)|
    decreases n
  {
    NothingCompleted(ordered, script, r);
    hide CompletedOnce, Places;
    if n > 0 {
      CompletedOnceCount(ordered, script, n - 1, r);
      PlacesNext(ordered, script, n - 1, r);
      CompletedOnceNext(ordered, script, n - 1, r);
    }
  }

  lemma NothingCompleted(ordered: Regs, script: nat -> Behaviour, r: Registration)
    ensures CompletedOnce(ordered, script, 0) == [] && Places(ordered, script, 0, r) == {}
  {
  }

  lemma CompletedOnceNext(ordered: Regs, script: nat -> Behaviour, n: nat, r: Registration)
    requires n < |ordered|
    ensures multiset(CompletedOnce(ordered, script, n + 1))[r] ==
            multiset(CompletedOnce(ordered, script, n))[r] + if ordered[n] == r && r.once && !script(n).raises then 1 else 0
  {
  }

  lemma PlacesNext(ordered: Regs, script: nat -> Behaviour, n: nat, r: Registration)
    requires n < |ordered|
    ensures |Places(ordered, script, n + 1, r)| ==
            |Places(ordered, script, n, r)| + if ordered[n] == r && r.once && !script(n).raises then 1 else 0
  {
    if ordered[n] == r && r.once && !script(n).raises {
      assert Places(ordered, script, n + 1, r) == Places(ordered, script, n, r) + {n};
    } else {
      assert Places(ordered, script, n + 1, r) == Places(ordered, script, n, r);
    }
  }

  /** The listeners that run are those up to the first that stops the event or that raises and has no name;
      of an event that is stopped before, none. */
  lemma RunsUpTo(ordered: Regs, stopped: bool, script: nat -> Behaviour, ok: bool, ran: nat)
    requires IsRun(ordered, stopped, script, ok, ran)
    ensures ran <= |ordered| && (stopped ==> ran == 0)
    ensures forall i: nat :: i + 1 < ran ==> !script(i).stops && !(script(i).raises && !ordered[i].listener.named)
    ensures !stopped && ran < |ordered| ==>
              ran > 0 && (script(ran - 1).stops || (script(ran - 1).raises && !ordered[ran - 1].listener.named))
    ensures !ok <==> ran > 0 && script(ran - 1).raises && !ordered[ran - 1].listener.named
  {
  }

  /** A dispatch that returns removes exactly the registrations for once that ran and did not raise; one
      that fails removes nothing. */
  lemma DispatchRemovesExactly(history: History, event: string, stopped: bool, script: nat -> Behaviour, ok: bool, ran: nat,
      after: History, r: Registration)
    requires IsDispatch(history, event, stopped, script, ok, ran, after) && IsHistory(after)
    ensures var ordered := StableSort(Candidates(Surviving(history), event));
      var removed := if ok then |set i: nat | i < ran && ordered[i] == r && r.once && !script(i).raises| else 0;
      var x := Logged(if r.pattern.Some? then r.pattern.value else event, r);
      multiset(Surviving(after))[x] == multiset(Surviving(history))[x] - removed
  {
    var ordered := StableSort(Candidates(Surviving(history), event));
    var done := CompletedOnce(ordered, script, ran);
    if ok {
      RemovalsBag(history, event, done);
      CompletedOnceCount(ordered, script, ran, r);
      assert Places(ordered, script, ran, r) == set i: nat | i < ran && ordered[i] == r && r.once && !script(i).raises;
      EntriesCount(event, done, r);
    } else {
      assert after[..|history|] == history;
    }
  }

  lemma {:induction false} EntriesCount(event: string, done: Regs, r: Registration)
    ensures multiset(Entries(event, done))[Logged(if r.pattern.Some? then r.pattern.value else event, r)] == multiset(done)[r]
  {
    if done != [] {
      var n := |done| - 1;
      EntriesCount(event, done[..n], r);
      EntriesNext(event, done, n);
      assert done == done[..n] + [done[n]];
    }
  }

  /** A dispatch fails exactly if a failing listener without a name is reached. */
  lemma DispatchFailsExactly(ordered: Regs, stopped: bool, script: nat -> Behaviour, ok: bool, ran: nat)
    requires IsRun(ordered, stopped, script, ok, ran)
    ensures !ok <==> !stopped && exists i: nat :: ReachesCrash(ordered, script, i)
  {
    if !ok {
      assert ReachesCrash(ordered, script, ran - 1);
    }
  }

  // ---- A registration for once that completes twice ------------------------------------------

  function OnceListener(): Registration {
    Registration(Listener(0, true), 100, false, "", false, true, None)
  }

  function UnnamedListener(): Registration {
    Registration(Listener(1, false), 50, false, "", false, false, None)
  }

  ghost function BothListen(): History {
    [Listened(Logged("e", OnceListener())), Listened(Logged("e", UnnamedListener()))]
  }

  function SecondRaises(): nat -> Behaviour {
    i => Behaviour(false, i == 1)
  }

  ghost function FailedOnce(): History {
    BothListen() + [Failed([Logged("e", OnceListener())])]
  }

  ghost function FailedTwice(): History {
    FailedOnce() + [Failed([Logged("e", OnceListener())])]
  }

  lemma BothSorted(log: Log)
    requires log == [Logged("e", OnceListener()), Logged("e", UnnamedListener())]
    ensures StableSort(Candidates(log, "e")) == [OnceListener(), UnnamedListener()]
  {
    var a, b := OnceListener(), UnnamedListener();
    assert !HasStar("e");
    assert log[1..] == [Logged("e", b)] && log[1..][1..] == [];
    assert Exact(log[1..], "e") == [b];
    assert Wild(log[1..]) == [];
    assert Wild(log) == [] && Exact(log, "e") == [a, b];
    assert Selected([], Keeps("e")) == [];
    assert Candidates(log, "e") == [a, b];
    assert [a, b][..1] == [a] && [a][..0] == [];
    assert StableSort([a]) == [a];
    assert Insert([], b) == [b] && [a][1..] == [];
  }

  lemma BothFail(history: History, ok: bool, ran: nat, after: History)
    requires Surviving(history) == [Logged("e", OnceListener()), Logged("e", UnnamedListener())]
    requires IsDispatch(history, "e", false, SecondRaises(), ok, ran, after)
    ensures !ok && after == history + [Failed([Logged("e", OnceListener())])]
  {
    hide Surviving, StableSort, Candidates;
    BothSorted(Surviving(history));
    var ordered, script := [OnceListener(), UnnamedListener()], SecondRaises();
    assert !script(0).stops && !Crashes(ordered[0], script(0)) && Crashes(ordered[1], script(1));
    assert ran == 2;
    assert CompletedOnce(ordered, script, 0) == [];
    assert CompletedOnce(ordered, script, 1) == [OnceListener()];
    assert CompletedOnce(ordered, script, 2) == [OnceListener()];
    assert EntryOf("e", OnceListener()) == Logged("e", OnceListener());
    assert Entries("e", [OnceListener()]) == [Logged("e", OnceListener())];
  }

  /** A listener that raises and has no name, behind a listener for once: both dispatches fail, and the
      listener for once completes in both. */
  lemma OnceListenerRunsTwice()
    ensures forall ok, ran, after :: IsDispatch(BothListen(), "e", false, SecondRaises(), ok, ran, after) ==> !ok && after == FailedOnce()
    ensures forall ok, ran, after :: IsDispatch(FailedOnce(), "e", false, SecondRaises(), ok, ran, after) ==> !ok && after == FailedTwice()
    ensures var x := Logged("e", OnceListener());
      TimesCompleted(FailedTwice(), x) == 2 && Times(FailedTwice(), Listened(x)) == 1 && RunsAgain(FailedTwice(), x, 2, 3)
  {
    var x, y := Logged("e", OnceListener()), Logged("e", UnnamedListener());
    var h := BothListen();
    assert h[..1] == [Listened(x)] && h[..1][..0] == [];
    assert Surviving([]) == [];
    assert Surviving(h[..1]) == [x];
    assert Surviving(h) == [x, y];
    assert FailedOnce()[..2] == h && FailedTwice()[..3] == FailedOnce();
    assert Surviving(FailedOnce()) == [x, y];
    forall ok, ran, after | IsDispatch(h, "e", false, SecondRaises(), ok, ran, after)
      ensures !ok && after == FailedOnce()
    {
      BothFail(h, ok, ran, after);
    }
    forall ok, ran, after | IsDispatch(FailedOnce(), "e", false, SecondRaises(), ok, ran, after)
      ensures !ok && after == FailedTwice()
    {
      BothFail(FailedOnce(), ok, ran, after);
    }
    TwiceCounts();
  }

  lemma TwiceCounts()
    ensures var x := Logged("e", OnceListener());
      TimesCompleted(FailedTwice(), x) == 2 && Times(FailedTwice(), Listened(x)) == 1
  {
    var x, h := Logged("e", OnceListener()), BothListen();
    assert h[..1] == [Listened(x)] && h[..1][..0] == [];
    assert FailedOnce()[..2] == h && FailedTwice()[..3] == FailedOnce();
    assert TimesCompleted([], x) == 0 && Times([], Listened(x)) == 0;
    assert Times(h[..1], Listened(x)) == 1 && TimesCompleted(h[..1], x) == 0;
    assert Times(h, Listened(x)) == 1 && TimesCompleted(h, x) == 0;
    assert TimesCompleted(FailedOnce(), x) == 1 && Times(FailedOnce(), Listened(x)) == 1;
  }
}
