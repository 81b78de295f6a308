/** Services that are started in order and stopped in reverse, with rollback of a failed start. */
module Lifecycle {
  import opened Outcomes

  datatype Service = Service(id: nat, name: string)

  /** A call of a service's `start` or `stop`, and whether it returned. */
  datatype Event = Start(service: Service, ok: bool) | Stop(service: Service, ok: bool)

  type Trace = seq<Event>

  datatype Error = NameMissing | StartFailed(name: string)

  datatype State = State(services: seq<Service>, started: seq<Service>, trace: Trace)

  /** What a caller may do. `starts` and `stops` say which of the calls made on services return. */
  datatype Command = Register(service: Service) | StartAll(starts: nat -> bool, stops: nat -> bool) | StopAll(stops: nat -> bool)

  const INITIAL := State([], [], [])

  // ---- What the commands do ----------------------------------------------------

  function FirstFailure(starts: nat -> bool, n: nat): (k: nat)
    ensures k <= n && (forall i: nat :: i < k ==> starts(i)) && (k < n ==> !starts(k))
  {
    if n == 0 then 0
    else
      var k := FirstFailure(starts, n - 1);
      if k < n - 1 || !starts(n - 1) then k else n
  }

  function Starting(services: seq<Service>): Trace {
    seq(|services|, i requires 0 <= i < |services| => Start(services[i], true))
  }

  function Stopping(started: seq<Service>, stops: nat -> bool): Trace {
    seq(|started|, i requires 0 <= i < |started| => Stop(started[|started| - 1 - i], stops(i)))
  }

  function AfterStartAll(s: State, starts: nat -> bool, stops: nat -> bool): State {
    var k := FirstFailure(starts, |s.services|);
    if k == |s.services| then State(s.services, s.services, s.trace + Starting(s.services))
    else
      var begun := s.services[..k];
      State(s.services, [], s.trace + Starting(begun) + [Start(s.services[k], false)] + Stopping(begun, stops))
  }

  function After(s: State, command: Command): State {
    match command
    case Register(service) => if service.name == "" then s else s.(services := s.services + [service])
    case StartAll(starts, stops) => AfterStartAll(s, starts, stops)
    case StopAll(stops) => State(s.services, [], s.trace + Stopping(s.started, stops))
  }

  function Run(s: State, commands: seq<Command>): State {
    if commands == [] then s else After(Run(s, commands[..|commands| - 1]), commands[|commands| - 1])
  }

  /** From s to t every service was started once, in order, and counts as started. */
  ghost predicate IsFullStart(s: State, t: State) {
    var m, n := |s.trace|, |s.services|;
    && t.services == s.services && t.started == s.services
    && |t.trace| == m + n && t.trace[..m] == s.trace
    && forall i :: 0 <= i < n ==> t.trace[m + i] == Start(s.services[i], true)
  }

  /** From s to t the services before k were started in order, the start of service k failed, and those
      before it were stopped in reverse; nothing counts as started. */
  ghost predicate IsFailedStart(s: State, t: State, k: nat, stops: nat -> bool) {
    var m := |s.trace|;
    && k < |s.services| && t.services == s.services && t.started == []
    && |t.trace| == m + k + 1 + k && t.trace[..m] == s.trace
    && (forall i :: 0 <= i < k ==> t.trace[m + i] == Start(s.services[i], true))
    && t.trace[m + k] == Start(s.services[k], false)
    && forall i :: 0 <= i < k ==> t.trace[m + k + 1 + i] == Stop(s.services[k - 1 - i], stops(i))
  }

  /** From s to t every started service was stopped once, in reverse order. */
  ghost predicate IsFullStop(s: State, t: State, stops: nat -> bool) {
    var m, n := |s.trace|, |s.started|;
    && t.services == s.services && t.started == []
    && |t.trace| == m + n && t.trace[..m] == s.trace
    && forall i :: 0 <= i < n ==> t.trace[m + i] == Stop(s.started[n - 1 - i], stops(i))
  }

  lemma StartsAll(s: State, starts: nat -> bool, stops: nat -> bool)
    requires forall i: nat :: i < |s.services| ==> starts(i)
    ensures IsFullStart(s, After(s, Command.StartAll(starts, stops)))
  {
  }

  lemma StartsUpTo(s: State, starts: nat -> bool, stops: nat -> bool, k: nat)
    requires k < |s.services| && !starts(k) && forall i: nat :: i < k ==> starts(i)
    ensures IsFailedStart(s, After(s, Command.StartAll(starts, stops)), k, stops)
  {
  }

  lemma StopsAll(s: State, stops: nat -> bool)
    ensures IsFullStop(s, After(s, Command.StopAll(stops)), stops)
  {
  }

  lemma RunNext(s: State, commands: seq<Command>, command: Command)
    ensures Run(s, []) == s && Run(s, commands + [command]) == After(Run(s, commands), command)
  {
    assert (commands + [command])[..|commands|] == commands;
  }

  class LifecycleManager {
    var services: seq<Service>
    var started: seq<Service>
    ghost var trace: Trace

    constructor ()
      ensures Now() == INITIAL
    {
      services, started, trace := [], [], [];
    }

    ghost function Now(): State
      reads this
    {
      State(services, started, trace)
    }

    method Register(service: Service) returns (r: Result<(), Error>)
      modifies this
      ensures Now() == After(old(Now()), Command.Register(service))
      ensures services == (if service.name == "" then old(services) else old(services) + [service])
      ensures started == old(started) && trace == old(trace)
      ensures r == if service.name == "" then Failure(NameMissing) else Success(())
    {
      if service.name == "" {
        return Failure(NameMissing);
      }
      services := services + [service];
      return Success(());
    }

    method StartAll(starts: nat -> bool, stops: nat -> bool) returns (r: Result<(), Error>, ghost failed: nat)
      modifies this
      ensures Now() == After(old(Now()), Command.StartAll(starts, stops))
      ensures r.Success? <==> forall i: nat :: i < |old(services)| ==> starts(i)
      ensures r.Success? ==> IsFullStart(old(Now()), Now())
      ensures r.Failure? ==>
                && failed < |old(services)| && !starts(failed) && (forall i: nat :: i < failed ==> starts(i))
                && r.error == StartFailed(old(services)[failed].name) && IsFailedStart(old(Now()), Now(), failed, stops)
    {
      ghost var k, before := FirstFailure(starts, |services|), Now();
      hide IsFullStart, IsFailedStart, IsFullStop;
      failed := k;
      started := [];
      for i := 0 to |services|
        invariant services == old(services) && i <= k
        invariant started == services[..i] && trace == old(trace) + Starting(services[..i])
      {
        var service := services[i];
        if !starts(i) {
          trace := trace + [Start(service, false)];
          StopAll(stops);
          StartsUpTo(before, starts, stops, i);
          r := Failure(StartFailed(service.name));
          return;
        }
        trace, started := trace + [Start(service, true)], started + [service];
      }
      assert services[..|services|] == services;
      StartsAll(before, starts, stops);
      r := Success(());
    }

    method StopAll(stops: nat -> bool)
      modifies this
      ensures Now() == After(old(Now()), Command.StopAll(stops))
      ensures IsFullStop(old(Now()), Now(), stops)
    {
      StopsAll(Now(), stops);
      hide IsFullStop;
      var n := |started|;
      for i := 0 to n
        invariant services == old(services) && started == old(started)
        invariant trace == old(trace) + Stopping(started, stops)[..i]
      {
        trace := trace + [Stop(started[n - 1 - i], stops(i))];
      }
      started := [];
    }
  }

  // ---- Brackets ------------------------------------------------------------------

  /** The services that are open after a trace, the last one started on top; nothing if a service is
      stopped that is not on top. */
  function Open(trace: Trace): Option<seq<Service>> {
    if trace == [] then Some([])
    else
      var before, event := Open(trace[..|trace| - 1]), trace[|trace| - 1];
      if before.None? then None
      else
        var open := before.value;
        match event
        case Start(s, ok) => Some(if ok then open + [s] else open)
        case Stop(s, _) => if open != [] && open[|open| - 1] == s then Some(open[..|open| - 1]) else None
  }

  lemma OpenNext(trace: Trace, event: Event)
    ensures Open(trace + [event]) ==
            match Open(trace)
            case None => None
            case Some(open) =>
              match event
              case Start(s, ok) => Some(if ok then open + [s] else open)
              case Stop(s, _) => if open != [] && open[|open| - 1] == s then Some(open[..|open| - 1]) else None
  {
    assert (trace + [event])[..|trace|] == trace;
  }

  lemma StartingSnoc(services: seq<Service>)
    requires services != []
    ensures var last := |services| - 1; Starting(services) == Starting(services[..last]) + [Start(services[last], true)]
  {
  }

  lemma StoppingCons(started: seq<Service>, stops: nat -> bool)
    requires started != []
    ensures var last := |started| - 1;
      Stopping(started, stops) == [Stop(started[last], stops(0))] + Stopping(started[..last], (n: nat) => stops(n + 1))
  {
  }

  lemma {:induction false} StartingOpens(trace: Trace, open: seq<Service>, services: seq<Service>)
    requires Open(trace) == Some(open)
    ensures Open(trace + Starting(services)) == Some(open + services)
  {
    if services == [] {
      assert trace + Starting(services) == trace && open + services == open;
    } else {
      hide Open, Starting;
      var init, last := services[..|services| - 1], services[|services| - 1];
      StartingOpens(trace, open, init);
      OpenNext(trace + Starting(init), Start(last, true));
      StartingSnoc(services);
      assert trace + Starting(services) == trace + Starting(init) + [Start(last, true)];
      assert open + services == open + init + [last];
    }
  }

  lemma {:induction false} StoppingCloses(trace: Trace, open: seq<Service>, started: seq<Service>, stops: nat -> bool)
    requires Open(trace) == Some(open + started)
    ensures Open(trace + Stopping(started, stops)) == Some(open)
    decreases |started|
  {
    if started == [] {
      assert trace + Stopping(started, stops) == trace && open + started == open;
    } else {
      hide Open, Stopping;
      var init, last := started[..|started| - 1], started[|started| - 1];
      var rest := (n: nat) => stops(n + 1);
      assert (open + started)[..|open + started| - 1] == open + init;
      OpenNext(trace, Stop(last, stops(0)));
      StoppingCloses(trace + [Stop(last, stops(0))], open, init, rest);
      StoppingCons(started, stops);
      assert trace + Stopping(started, stops) == trace + [Stop(last, stops(0))] + Stopping(init, rest);
    }
  }

  /** What starting again forgets: the services started at each call of `start_all`. */
  function Leaked(s: State, commands: seq<Command>): seq<Service> {
    if commands == [] then []
    else
      var init, last := commands[..|commands| - 1], commands[|commands| - 1];
      Leaked(s, init) + if last.StartAll? then Run(s, init).started else []
  }

  lemma AfterIsBracketed(s: State, open: seq<Service>, command: Command)
    requires Open(s.trace) == Some(open + s.started)
    ensures var leak := if command.StartAll? then s.started else [];
      Open(After(s, command).trace) == Some(open + leak + After(s, command).started)
  {
    match command {
      case Register(_) => assert open + [] == open;
      case StopAll(stops) =>
        StoppingCloses(s.trace, open, s.started, stops);
        assert open + [] + [] == open;
      case StartAll(starts, stops) =>
        var all := open + s.started;
        var k := FirstFailure(starts, |s.services|);
        if k == |s.services| {
          StartingOpens(s.trace, all, s.services);
        } else {
          var begun, failed := s.services[..k], [Start(s.services[k], false)];
          StartingOpens(s.trace, all, begun);
          OpenNext(s.trace + Starting(begun), Start(s.services[k], false));
          StoppingCloses(s.trace + Starting(begun) + failed, all, begun, stops);
          assert all + [] == all;
        }
    }
  }

  /** Over every run, what is open is what earlier starts leaked and what is started now. */
  lemma {:induction false} RunIsBracketed(commands: seq<Command>)
    ensures Open(Run(INITIAL, commands).trace) == Some(Leaked(INITIAL, commands) + Run(INITIAL, commands).started)
  {
    if commands != [] {
      var init := commands[..|commands| - 1];
      RunIsBracketed(init);
      AfterIsBracketed(Run(INITIAL, init), Leaked(INITIAL, init), commands[|commands| - 1]);
    } else {
      assert Leaked(INITIAL, commands) + Run(INITIAL, commands).started == [];
    }
  }

  /** Some call of `start_all` finds services still started. */
  ghost predicate StartsOverStarted(commands: seq<Command>, i: nat) {
    i < |commands| && commands[i].StartAll? && Run(INITIAL, commands[..i]).started != []
  }

  lemma {:induction false} LeakedExactly(commands: seq<Command>)
    ensures Leaked(INITIAL, commands) != [] <==> exists i: nat :: StartsOverStarted(commands, i)
  {
    if commands != [] {
      var n := |commands| - 1;
      var init := commands[..n];
      LeakedExactly(init);
      forall i: nat | i < n
        ensures StartsOverStarted(commands, i) <==> StartsOverStarted(init, i)
      {
        assert init[..i] == commands[..i];
      }
      if StartsOverStarted(commands, n) {
        assert Leaked(INITIAL, commands) != [];
      }
      if i: nat :| StartsOverStarted(init, i) {
        assert StartsOverStarted(commands, i);
      }
    }
  }

  /** Whenever nothing is started, be it after `stop_all` or after a start that failed, nothing is open
      exactly if no call of `start_all` found services still started. */
  lemma IdleRunIsClosedExactly(commands: seq<Command>)
    requires Run(INITIAL, commands).started == []
    ensures Open(Run(INITIAL, commands).trace) == Some([]) <==> forall i: nat :: !StartsOverStarted(commands, i)
  {
    RunIsBracketed(commands);
    LeakedExactly(commands);
  }

  // ---- What being closed means -----------------------------------------------------------

  predicate Starts(trace: Trace, i: nat) {
    i < |trace| && trace[i].Start? && trace[i].ok
  }

  predicate Stops(trace: Trace, i: nat) {
    i < |trace| && trace[i].Stop?
  }

  /** `stop` gives every start outside `open` its stop: a later one, of the same service, shared with no
      other start, and every stop is one of them. */
  ghost predicate Pairs(trace: Trace, stop: map<nat, nat>, open: seq<nat>) {
    && (forall i: nat :: i in stop || i in open <==> Starts(trace, i))
    && (forall i: nat :: i in stop ==> i !in open && i < stop[i] && Stops(trace, stop[i]) && trace[stop[i]].service == trace[i].service)
    && (forall i: nat, j: nat :: i in stop && j in stop && stop[i] == stop[j] ==> i == j)
    && (forall k: nat :: Stops(trace, k) ==> exists i: nat :: i in stop && stop[i] == k)
  }

  /** Of two services the one started later is stopped earlier, unless the other was stopped before it
      was started. */
  ghost predicate Nests(stop: map<nat, nat>) {
    forall i: nat, j: nat :: i in stop && j in stop && i < j ==> stop[j] < stop[i] || stop[i] < j
  }

  ghost predicate NestsInOpen(stop: map<nat, nat>, open: seq<nat>) {
    && (forall a: nat, b: nat :: a < b < |open| ==> open[a] < open[b])
    && (forall i: nat, a: nat :: i in stop && a < |open| && i < open[a] ==> stop[i] < open[a])
  }

  ghost predicate IsPairing(trace: Trace, services: seq<Service>, stop: map<nat, nat>, open: seq<nat>) {
    && Pairs(trace, stop, open) && Nests(stop) && NestsInOpen(stop, open)
    && |open| == |services| && forall a: nat :: a < |open| ==> open[a] < |trace| && trace[open[a]].service == services[a]
  }

  lemma PairsAfterOther(trace: Trace, stop: map<nat, nat>, open: seq<nat>, event: Event)
    requires Pairs(trace, stop, open) && event.Start? && !event.ok
    ensures Pairs(trace + [event], stop, open)
  {
    assert forall i: nat :: Starts(trace + [event], i) <==> Starts(trace, i);
    assert forall i: nat :: Stops(trace + [event], i) <==> Stops(trace, i);
  }

  lemma PairsAfterStart(trace: Trace, stop: map<nat, nat>, open: seq<nat>, event: Event)
    requires Pairs(trace, stop, open) && event.Start? && event.ok
    ensures Pairs(trace + [event], stop, open + [|trace|])
  {
    assert forall i: nat :: Starts(trace + [event], i) <==> Starts(trace, i) || i == |trace|;
    assert forall i: nat :: Stops(trace + [event], i) <==> Stops(trace, i);
  }

  lemma PairsAfterStop(trace: Trace, stop: map<nat, nat>, open: seq<nat>, top: nat, event: Event)
    requires Pairs(trace, stop, open + [top]) && top !in open && event.Stop?
    requires Starts(trace, top) && trace[top].service == event.service
    ensures Pairs(trace + [event], stop[top := |trace|], open)
  {
    var after, stopAfter := trace + [event], stop[top := |trace|];
    assert top in open + [top];
    forall i: nat
      ensures i in stopAfter || i in open <==> Starts(after, i)
    {
      assert Starts(after, i) <==> Starts(trace, i);
      assert i in open + [top] <==> i in open || i == top;
    }
    forall i: nat | i in stopAfter
      ensures i !in open && i < stopAfter[i] && Stops(after, stopAfter[i]) && after[stopAfter[i]].service == after[i].service
    {
      assert i in open ==> i in open + [top];
      if i != top {
        assert Stops(trace, stop[i]);
      }
    }
    forall k: nat | Stops(after, k)
      ensures exists i: nat :: i in stopAfter && stopAfter[i] == k
    {
      if k == |trace| {
        assert stopAfter[top] == k;
      } else {
        assert Stops(trace, k);
        var i: nat :| i in stop && stop[i] == k;
        assert i in stopAfter && stopAfter[i] == k;
      }
    }
  }

  lemma NestsAfterStop(stop: map<nat, nat>, open: seq<nat>, top: nat, n: nat)
    requires Nests(stop) && NestsInOpen(stop, open + [top]) && top !in stop && forall i: nat :: i in stop ==> stop[i] < n
    ensures Nests(stop[top := n]) && NestsInOpen(stop[top := n], open)
  {
    var all := open + [top];
    assert all[|open|] == top;
    assert forall a: nat :: a < |open| ==> all[a] == open[a];
  }

  lemma NestsAfterStart(stop: map<nat, nat>, open: seq<nat>, n: nat)
    requires NestsInOpen(stop, open) && forall i: nat :: i in stop ==> stop[i] < n
    requires forall a: nat :: a < |open| ==> open[a] < n
    ensures NestsInOpen(stop, open + [n])
  {
  }

  lemma PairingAfterStop(before: Trace, services: seq<Service>, stop: map<nat, nat>, open: seq<nat>, event: Event)
    requires IsPairing(before, services, stop, open)
    requires event.Stop? && services != [] && services[|services| - 1] == event.service
    ensures var last := |services| - 1;
      IsPairing(before + [event], services[..last], stop[open[last] := |before|], open[..last])
  {
    var last := |services| - 1;
    var top, rest := open[last], open[..last];
    assert open == rest + [top];
    assert top in open;
    assert top !in rest;
    assert forall i: nat :: i in stop ==> Stops(before, stop[i]) && stop[i] < |before|;
    PairsAfterStop(before, stop, rest, top, event);
    NestsAfterStop(stop, rest, top, |before|);
    hide Pairs, Nests, NestsInOpen;
  }

  lemma PairingAfterStart(before: Trace, services: seq<Service>, stop: map<nat, nat>, open: seq<nat>, event: Event)
    requires IsPairing(before, services, stop, open) && event.Start? && event.ok
    ensures IsPairing(before + [event], services + [event.service], stop, open + [|before|])
  {
    assert forall i: nat :: i in stop ==> Stops(before, stop[i]) && stop[i] < |before|;
    PairsAfterStart(before, stop, open, event);
    NestsAfterStart(stop, open, |before|);
    hide Pairs, Nests, NestsInOpen;
  }

  lemma PairingAfterOther(before: Trace, services: seq<Service>, stop: map<nat, nat>, open: seq<nat>, event: Event)
    requires IsPairing(before, services, stop, open) && event.Start? && !event.ok
    ensures IsPairing(before + [event], services, stop, open)
  {
    PairsAfterOther(before, stop, open, event);
    hide Pairs, Nests, NestsInOpen;
  }

  lemma OpenSizes(trace: Trace, services: seq<Service>, stop: map<nat, nat>, open: seq<nat>)
    requires IsPairing(trace, services, stop, open)
    ensures |open| == |services|
  {
  }

  lemma {:induction false} OpenPairs(trace: Trace) returns (stop: map<nat, nat>, open: seq<nat>)
    requires Open(trace).Some?
    ensures IsPairing(trace, Open(trace).value, stop, open)
  {
    if trace == [] {
      stop, open := map[], [];
    } else {
      var n := |trace| - 1;
      var before, event := trace[..n], trace[n];
      assert trace == before + [event];
      hide IsPairing;
      stop, open := OpenPairs(before);
      OpenSizes(before, Open(before).value, stop, open);
      if event.Stop? {
        PairingAfterStop(before, Open(before).value, stop, open, event);
        stop, open := stop[open[|open| - 1] := n], open[..|open| - 1];
      } else if event.ok {
        PairingAfterStart(before, Open(before).value, stop, open, event);
        open := open + [n];
      } else {
        PairingAfterOther(before, Open(before).value, stop, open, event);
      }
    }
  }

  /** If nothing is open, every start has its one stop, in reverse order of the starts. */
  lemma ClosedMeansEveryStartStopped(trace: Trace) returns (stop: map<nat, nat>)
    requires Open(trace) == Some([])
    ensures Pairs(trace, stop, []) && Nests(stop)
  {
    var open;
    stop, open := OpenPairs(trace);
  }
}
