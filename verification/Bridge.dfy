/** The bridge that broadcasts a worker's events to all workers through Redis: how one worker patches
    its bus, publishes and handles messages, and what a run of several workers does. */
module Bridge {
  import opened Outcomes

  const MARKER := "_broadcast_source"
  const REDIS := "redis"

  /** The subscription that every started bridge makes; it covers every published event. */
  const OWN := "swx:events:*"

  /** The keyword arguments an event object takes besides its name and payload. */
  const EVENT_FIELDS := {"timestamp", "stopped", "_metadata"}

  type Kwargs = map<string, string>

  datatype Message = Message(event: string, payload: nat, kwargs: Kwargs)

  /** A message that arrived, and the subscription it arrived for. */
  datatype Delivery = Delivery(pattern: string, message: Message)

  /** A delivery that reached the local listeners, and the handlers of its pattern that ran then. */
  datatype Reached = Reached(delivery: Delivery, handlers: seq<nat>)

  /** What the bus's `dispatch` is: its own, or a broadcasting wrapper around another one. */
  datatype Entry = Plain | Broadcasting(inner: Entry)

  datatype Worker = Worker(
    hasRedis: bool,
    entry: Entry,
    original: Option<Entry>,
    running: bool,
    customs: seq<string>,
    handlers: map<string, seq<nat>>,
    subscriptions: seq<string>,
    excludes: set<string>,
    filter: Option<string -> bool>,
    queue: seq<Delivery>,
    handled: seq<Delivery>,
    reached: seq<Reached>)

  /** What one dispatch does: whether it returns, and what it publishes. */
  datatype Dispatched = Dispatched(ok: bool, out: seq<Message>)

  // ---- One worker -----------------------------------------------------------------

  predicate ShouldBroadcast(w: Worker, event: string) {
    (forall p :: p in w.excludes ==> !(p <= event)) && (w.filter.Some? ==> w.filter.value(event))
  }

  function Published(w: Worker, event: string, payload: nat, kwargs: Kwargs): seq<Message> {
    if w.hasRedis then [Message(event, payload, kwargs - {MARKER})] else []
  }

  predicate IsFromRedis(kwargs: Kwargs) {
    MARKER in kwargs && kwargs[MARKER] == REDIS
  }

  /** Dispatching through an entry: the bus itself refuses unknown keyword arguments; each wrapper
      dispatches through what it wraps first, and then publishes. */
  function DispatchVia(w: Worker, entry: Entry, fields: set<string>, event: string, payload: nat, kwargs: Kwargs,
      survives: bool): Dispatched
  {
    match entry
    case Plain => Dispatched((forall k :: k in kwargs ==> k in fields) && survives, [])
    case Broadcasting(inner) =>
      var local := DispatchVia(w, inner, fields, event, payload, kwargs, survives);
      if !local.ok || IsFromRedis(kwargs) || !ShouldBroadcast(w, event) then local
      else local.(out := local.out + Published(w, event, payload, kwargs))
  }

  function Patched(w: Worker): Worker {
    if w.original.Some? then w else w.(original := Some(w.entry), entry := Broadcasting(w.entry))
  }

  function Unpatched(w: Worker): Worker {
    if w.original.None? then w else w.(entry := w.original.value, original := None)
  }

  function Adding(subscriptions: seq<string>, p: string): seq<string> {
    if p in subscriptions then subscriptions else subscriptions + [p]
  }

  function AddingAll(subscriptions: seq<string>, ps: seq<string>): seq<string> {
    if ps == [] then subscriptions else Adding(AddingAll(subscriptions, ps[..|ps| - 1]), ps[|ps| - 1])
  }

  function Dropping(ps: seq<string>, p: string): seq<string> {
    if ps == [] then []
    else if ps[0] == p then Dropping(ps[1..], p)
    else [ps[0]] + Dropping(ps[1..], p)
  }

  function Started(w: Worker): Worker {
    if !w.hasRedis || w.running then w
    else w.(running := true, subscriptions := AddingAll([OWN], w.customs))
  }

  function Stopped(w: Worker): Worker {
    w.(running := false, subscriptions := [], queue := [])
  }

  /** The handlers of a custom pattern, in order. */
  function HandlersOf(handlers: map<string, seq<nat>>, p: string): seq<nat> {
    if p in handlers then handlers[p] else []
  }

  function Without(hs: seq<nat>, h: nat): seq<nat> {
    if hs == [] then []
    else if hs[0] == h then Without(hs[1..], h)
    else [hs[0]] + Without(hs[1..], h)
  }

  function Subscribed(w: Worker, p: string, h: nat): Worker {
    var more := w.(handlers := w.handlers[p := HandlersOf(w.handlers, p) + [h]]);
    if p in w.customs then more
    else more.(customs := w.customs + [p], subscriptions := if w.running then Adding(w.subscriptions, p) else w.subscriptions)
  }

  /** A pattern whose last handler goes is forgotten, and its subscription ends. */
  function Unsubscribed(w: Worker, p: string, h: nat): Worker {
    var left := Without(HandlersOf(w.handlers, p), h);
    if p !in w.customs then w
    else if left != [] then w.(handlers := w.handlers[p := left])
    else w.(handlers := w.handlers - {p}, customs := Dropping(w.customs, p), subscriptions := Dropping(w.subscriptions, p))
  }

  const FROM_REDIS: Kwargs := map[MARKER := REDIS]

  /** Handling a message: dispatched locally with the marker; an error is logged and ends the handling. */
  function Handled(w: Worker, fields: set<string>, d: Delivery, survives: bool): Worker {
    var done := w.(handled := w.handled + [d]);
    if d.message.event == "" then done
    else if !DispatchVia(w, w.entry, fields, d.message.event, d.message.payload, FROM_REDIS, survives).ok then done
    else done.(reached := w.reached + [Reached(d, if d.pattern in w.customs then HandlersOf(w.handlers, d.pattern) else [])])
  }

  /** Whatever the entry, what came from Redis is not published again. */
  lemma {:induction false} FromRedisIsNotPublished(w: Worker, entry: Entry, fields: set<string>, event: string, payload: nat,
      kwargs: Kwargs, survives: bool)
    requires IsFromRedis(kwargs)
    ensures DispatchVia(w, entry, fields, event, payload, kwargs, survives).out == []
  {
    match entry {
      case Plain =>
      case Broadcasting(inner) => FromRedisIsNotPublished(w, inner, fields, event, payload, kwargs, survives);
    }
  }

  /** The bus is wrapped once or not at all. */
  predicate IsWrappedOnce(w: Worker) {
    match w.original
    case None => w.entry == Plain
    case Some(e) => e == Plain && w.entry == Broadcasting(Plain)
  }

  lemma {:induction false} AddingAllBegins(subscriptions: seq<string>, ps: seq<string>)
    ensures subscriptions <= AddingAll(subscriptions, ps)
  {
    if ps != [] {
      AddingAllBegins(subscriptions, ps[..|ps| - 1]);
    }
  }

  lemma {:induction false} WithoutMembers(hs: seq<nat>, h: nat)
    ensures forall g :: g in Without(hs, h) <==> g in hs && g != h
  {
    if hs != [] {
      assert hs == [hs[0]] + hs[1..];
      WithoutMembers(hs[1..], h);
    }
  }

  lemma {:induction false} DroppingMembers(ps: seq<string>, p: string)
    ensures forall q :: q in Dropping(ps, p) <==> q in ps && q != p
  {
    if ps != [] {
      assert ps == [ps[0]] + ps[1..];
      DroppingMembers(ps[1..], p);
    }
  }

  class RedisEventBridge {
    const hasRedis: bool
    var entry: Entry
    var original: Option<Entry>
    var running: bool
    var customs: seq<string>
    var handlers: map<string, seq<nat>>
    var subscriptions: seq<string>
    var excludes: set<string>
    var filter: Option<string -> bool>
    var queue: seq<Delivery>
    ghost var handled: seq<Delivery>
    ghost var reached: seq<Reached>

    constructor (hasRedis: bool)
      ensures Now() == NewWorker(hasRedis)
    {
      this.hasRedis, entry, original, running := hasRedis, Plain, None, false;
      customs, handlers, subscriptions, excludes, filter, queue := [], map[], [], {}, None, [];
      handled, reached := [], [];
    }

    ghost function Now(): Worker
      reads this
    {
      Worker(hasRedis, entry, original, running, customs, handlers, subscriptions, excludes, filter, queue, handled, reached)
    }

    method PatchDispatch()
      modifies `entry, `original
      ensures Now() == Patched(old(Now()))
      ensures entry == (if old(original).Some? then old(entry) else Broadcasting(old(entry)))
      ensures original == (if old(original).Some? then old(original) else Some(old(entry)))
    {
      if original.Some? {
        return;
      }
      original := Some(entry);
      entry := Broadcasting(entry);
    }

    method UnpatchDispatch()
      modifies `entry, `original
      ensures Now() == Unpatched(old(Now()))
      ensures entry == (if old(original).Some? then old(original).value else old(entry)) && original == None
    {
      if original.Some? {
        entry, original := original.value, None;
      }
    }

    method Start()
      modifies `running, `subscriptions
      ensures Now() == Started(old(Now()))
      ensures running == (old(running) || hasRedis)
      ensures hasRedis && !old(running) ==> subscriptions[..1] == [OWN] && forall p :: p in subscriptions <==> p == OWN || p in customs
      ensures !hasRedis || old(running) ==> subscriptions == old(subscriptions)
    {
      if !hasRedis || running {
        return;
      }
      running, subscriptions := true, [OWN];
      for i := 0 to |customs|
        invariant running && subscriptions == AddingAll([OWN], customs[..i])
      {
        assert customs[..i + 1][..i] == customs[..i];
        subscriptions := Adding(subscriptions, customs[i]);
      }
      assert customs[..|customs|] == customs;
      AddingAllKeeps([OWN], customs);
      AddingAllBegins([OWN], customs);
    }

    method Stop()
      modifies `running, `subscriptions, `queue
      ensures Now() == Stopped(old(Now()))
      ensures !running && subscriptions == [] && queue == []
    {
      running, subscriptions, queue := false, [], [];
    }

    method Subscribe(p: string, h: nat)
      modifies `customs, `handlers, `subscriptions
      ensures Now() == Subscribed(old(Now()), p, h)
      ensures handlers == old(handlers)[p := (if p in old(handlers) then old(handlers)[p] else []) + [h]]
      ensures customs == if p in old(customs) then old(customs) else old(customs) + [p]
      ensures forall q :: q in subscriptions <==> q in old(subscriptions) || (q == p && running && p !in old(customs))
    {
      handlers := handlers[p := HandlersOf(handlers, p) + [h]];
      if p !in customs {
        customs := customs + [p];
        if running {
          subscriptions := Adding(subscriptions, p);
        }
      }
    }

    method Unsubscribe(p: string, h: nat)
      modifies `customs, `handlers, `subscriptions
      ensures Now() == Unsubscribed(old(Now()), p, h)
      ensures p !in old(customs) ==> customs == old(customs) && handlers == old(handlers) && subscriptions == old(subscriptions)
      ensures p in old(customs) && p in old(handlers) && (exists g :: g in old(handlers)[p] && g != h) ==>
                && customs == old(customs) && subscriptions == old(subscriptions)
                && p in handlers && forall g :: g in handlers[p] <==> g in old(handlers)[p] && g != h
      ensures p in old(customs) && p in old(handlers) && (forall g :: g in old(handlers)[p] ==> g == h) ==>
                && handlers == old(handlers) - {p}
                && (forall q :: q in customs <==> q in old(customs) && q != p)
                && forall q :: q in subscriptions <==> q in old(subscriptions) && q != p
    {
      if p in customs {
        var left := Without(HandlersOf(handlers, p), h);
        WithoutMembers(HandlersOf(handlers, p), h);
        DroppingMembers(customs, p);
        DroppingMembers(subscriptions, p);
        assert left != [] ==> left[0] in left;
        if left != [] {
          handlers := handlers[p := left];
        } else {
          handlers, customs, subscriptions := handlers - {p}, Dropping(customs, p), Dropping(subscriptions, p);
        }
      }
    }

    method MayBroadcast(event: string) returns (b: bool)
      ensures b == ShouldBroadcast(Now(), event)
      ensures b <==> (forall p :: p in excludes ==> !(p <= event)) && (filter.None? || filter.value(event))
    {
      var rest := excludes;
      while rest != {}
        invariant rest <= excludes && forall p :: p in excludes && p <= event ==> p in rest
        decreases |rest|
      {
        var prefix :| prefix in rest;
        if prefix <= event {
          return false;
        }
        rest := rest - {prefix};
      }
      return filter.None? || filter.value(event);
    }

    method DispatchThrough(through: Entry, fields: set<string>, event: string, payload: nat, kwargs: Kwargs, survives: bool)
      returns (ok: bool, out: seq<Message>)
      ensures Dispatched(ok, out) == DispatchVia(Now(), through, fields, event, payload, kwargs, survives)
      decreases through
    {
      if through.Plain? {
        return (forall k :: k in kwargs ==> k in fields) && survives, [];
      }
      ok, out := DispatchThrough(through.inner, fields, event, payload, kwargs, survives);
      if !ok || (MARKER in kwargs && kwargs[MARKER] == REDIS) {
        return;
      }
      var may := MayBroadcast(event);
      if may && hasRedis {
        out := out + [Message(event, payload, kwargs - {MARKER})];
      }
    }

    /** Whatever is handled, nothing is published. */
    method HandleMessage(fields: set<string>, d: Delivery, survives: bool) returns (out: seq<Message>)
      modifies `handled, `reached
      ensures Now() == Handled(old(Now()), fields, d, survives)
      ensures out == []
    {
      var ok := false;
      out := [];
      if d.message.event != "" {
        ok, out := DispatchThrough(entry, fields, d.message.event, d.message.payload, FROM_REDIS, survives);
        FromRedisIsNotPublished(Now(), entry, fields, d.message.event, d.message.payload, FROM_REDIS, survives);
      }
      handled := handled + [d];
      if ok {
        reached := reached + [Reached(d, if d.pattern in customs then HandlersOf(handlers, d.pattern) else [])];
      }
    }
  }

  // ---- Several workers ----------------------------------------------------------------

  /** What can happen at worker i. `survives` says whether the bus's own dispatch returns once it has an
      event object, and `accepted` whether Redis takes what is published. */
  datatype Step =
    | Patch(i: nat) | Unpatch(i: nat) | Start(i: nat) | Stop(i: nat)
    | Exclude(i: nat, prefix: string) | Readmit(i: nat, prefix: string) | SetFilter(i: nat, f: string -> bool)
    | Subscribe(i: nat, pattern: string, handler: nat) | Unsubscribe(i: nat, pattern: string, handler: nat)
    | Dispatch(i: nat, event: string, payload: nat, kwargs: Kwargs, survives: bool, accepted: bool)
    | Deliver(i: nat, survives: bool, accepted: bool)

  /** The workers, and everything Redis ever took. */
  datatype World = World(workers: seq<Worker>, published: seq<Message>)

  /** The event object's fields, and which custom patterns cover which events. */
  datatype Setting = Setting(fields: set<string>, covers: (string, string) -> bool)

  function Copies(setting: Setting, subscriptions: seq<string>, m: Message): seq<Delivery> {
    if subscriptions == [] then []
    else
      var rest := Copies(setting, subscriptions[1..], m);
      if subscriptions[0] == OWN || setting.covers(subscriptions[0], m.event) then [Delivery(subscriptions[0], m)] + rest
      else rest
  }

  function Receiving(setting: Setting, w: Worker, ms: seq<Message>): Worker {
    if ms == [] then w
    else
      var before := Receiving(setting, w, ms[..|ms| - 1]);
      before.(queue := before.queue + Copies(setting, w.subscriptions, ms[|ms| - 1]))
  }

  /** Redis passes what it takes on to every worker, the publisher included. */
  function Broadcast(setting: Setting, world: World, ms: seq<Message>): World {
    World(seq(|world.workers|, i requires 0 <= i < |world.workers| => Receiving(setting, world.workers[i], ms)),
          world.published + ms)
  }

  function Taken(out: seq<Message>, accepted: bool): seq<Message> {
    if accepted then out else []
  }

  /** What Redis takes of what the step makes worker w publish. */
  function Sent(setting: Setting, w: Worker, step: Step): seq<Message>
    requires step.Deliver? ==> w.queue != []
  {
    match step
    case Dispatch(_, event, payload, kwargs, survives, accepted) =>
      Taken(DispatchVia(w, w.entry, setting.fields, event, payload, kwargs, survives).out, accepted)
    case Deliver(_, survives, accepted) =>
      var m := w.queue[0].message;
      if m.event == "" then []
      else Taken(DispatchVia(w, w.entry, setting.fields, m.event, m.payload, FROM_REDIS, survives).out, accepted)
    case _ => []
  }

  /** Worker w after the step, before anything new arrives. */
  function Settled(setting: Setting, w: Worker, step: Step): Worker
    requires step.Deliver? ==> w.queue != []
  {
    match step
    case Patch(_) => Patched(w)
    case Unpatch(_) => Unpatched(w)
    case Start(_) => Started(w)
    case Stop(_) => Stopped(w)
    case Exclude(_, prefix) => w.(excludes := w.excludes + {prefix})
    case Readmit(_, prefix) => w.(excludes := w.excludes - {prefix})
    case SetFilter(_, f) => w.(filter := Some(f))
    case Subscribe(_, p, h) => Subscribed(w, p, h)
    case Unsubscribe(_, p, h) => Unsubscribed(w, p, h)
    case Dispatch(_, _, _, _, _, _) => w
    case Deliver(_, survives, _) => Handled(w.(queue := w.queue[1..]), setting.fields, w.queue[0], survives)
  }

  predicate IsEnabled(world: World, step: Step) {
    step.i < |world.workers| && (step.Deliver? ==> world.workers[step.i].queue != [])
  }

  function Next(setting: Setting, world: World, step: Step): World {
    if !IsEnabled(world, step) then world
    else
      var w := world.workers[step.i];
      Broadcast(setting, world.(workers := world.workers[step.i := Settled(setting, w, step)]), Sent(setting, w, step))
  }

  function Run(setting: Setting, world: World, steps: seq<Step>): World {
    if steps == [] then world
    else Next(setting, Run(setting, world, steps[..|steps| - 1]), steps[|steps| - 1])
  }

  function NewWorker(hasRedis: bool): Worker {
    Worker(hasRedis, Plain, None, false, [], map[], [], {}, None, [], [], [])
  }

  /** Workers as they are constructed. */
  ghost predicate IsInitial(world: World) {
    world.published == [] && forall i :: 0 <= i < |world.workers| ==>
      world.workers[i] == NewWorker(world.workers[i].hasRedis)
  }

  // ---- What is published ------------------------------------------------------------------

  /** A dispatch by a caller that the bridge is to broadcast. */
  ghost predicate Qualifies(setting: Setting, world: World, step: Step) {
    && step.Dispatch? && step.i < |world.workers|
    && var w := world.workers[step.i];
    && w.original.Some? && w.hasRedis && step.accepted
    && step.survives && (forall k :: k in step.kwargs ==> k in setting.fields)
    && !IsFromRedis(step.kwargs) && ShouldBroadcast(w, step.event)
  }

  /** The messages of the dispatches in a run that qualify. */
  ghost function Qualifying(setting: Setting, world: World, steps: seq<Step>): seq<Message> {
    if steps == [] then []
    else
      var init, last := steps[..|steps| - 1], steps[|steps| - 1];
      Qualifying(setting, world, init) +
      if Qualifies(setting, Run(setting, world, init), last) then [Message(last.event, last.payload, last.kwargs - {MARKER})]
      else []
  }

  ghost predicate AllWrappedOnce(world: World) {
    forall i :: 0 <= i < |world.workers| ==> IsWrappedOnce(world.workers[i])
  }

  lemma {:induction false} ReceivingOnlyQueues(setting: Setting, w: Worker, ms: seq<Message>)
    ensures Receiving(setting, w, ms) == w.(queue := Receiving(setting, w, ms).queue)
  {
    if ms != [] {
      ReceivingOnlyQueues(setting, w, ms[..|ms| - 1]);
    }
  }

  lemma BroadcastKeepsWrapping(setting: Setting, world: World, ms: seq<Message>)
    requires AllWrappedOnce(world)
    ensures AllWrappedOnce(Broadcast(setting, world, ms))
  {
    forall i | 0 <= i < |world.workers|
      ensures IsWrappedOnce(Broadcast(setting, world, ms).workers[i])
    {
      ReceivingOnlyQueues(setting, world.workers[i], ms);
    }
  }

  lemma StepPublishesExactly(setting: Setting, world: World, step: Step)
    requires AllWrappedOnce(world)
    ensures AllWrappedOnce(Next(setting, world, step))
    ensures Next(setting, world, step).published == world.published +
              if Qualifies(setting, world, step) then [Message(step.event, step.payload, step.kwargs - {MARKER})] else []
  {
    if IsEnabled(world, step) {
      var w := world.workers[step.i];
      assert IsWrappedOnce(w);
      SentExactly(setting, w, step);
      BroadcastKeepsWrapping(setting, world.(workers := world.workers[step.i := Settled(setting, w, step)]), Sent(setting, w, step));
    }
  }

  lemma DispatchPublishesExactly(w: Worker, fields: set<string>, event: string, payload: nat, kwargs: Kwargs, survives: bool)
    requires IsWrappedOnce(w)
    ensures DispatchVia(w, w.entry, fields, event, payload, kwargs, survives).out ==
            if w.original.Some? && w.hasRedis && survives && (forall k :: k in kwargs ==> k in fields)
               && !IsFromRedis(kwargs) && ShouldBroadcast(w, event)
            then [Message(event, payload, kwargs - {MARKER})] else []
  {
  }

  lemma SentExactly(setting: Setting, w: Worker, step: Step)
    requires IsWrappedOnce(w) && (step.Deliver? ==> w.queue != [])
    ensures IsWrappedOnce(Settled(setting, w, step))
    ensures Sent(setting, w, step) ==
            if step.Dispatch? && w.original.Some? && w.hasRedis && step.accepted && step.survives
               && (forall k :: k in step.kwargs ==> k in setting.fields) && !IsFromRedis(step.kwargs) && ShouldBroadcast(w, step.event)
            then [Message(step.event, step.payload, step.kwargs - {MARKER})] else []
  {
    if step.Deliver? {
      var m := w.queue[0].message;
      FromRedisIsNotPublished(w, w.entry, setting.fields, m.event, m.payload, FROM_REDIS, step.survives);
    } else if step.Dispatch? {
      DispatchPublishesExactly(w, setting.fields, step.event, step.payload, step.kwargs, step.survives);
    }
  }

  /** Over every run, what Redis took are the messages of the qualifying dispatches, one each, in order,
      however often the buses were patched. */
  lemma {:induction false} PublishedExactly(setting: Setting, world: World, steps: seq<Step>)
    requires IsInitial(world)
    ensures AllWrappedOnce(Run(setting, world, steps))
    ensures Run(setting, world, steps).published == Qualifying(setting, world, steps)
  {
    if steps != [] {
      PublishedExactly(setting, world, steps[..|steps| - 1]);
      StepPublishesExactly(setting, Run(setting, world, steps[..|steps| - 1]), steps[|steps| - 1]);
    }
  }

  // ---- What the steps taken so far say about the next dispatch --------------------------------

  /** Worker i's bus was patched, and not unpatched since. */
  ghost predicate IsPatchedBy(steps: seq<Step>, i: nat) {
    exists j :: 0 <= j < |steps| && steps[j] == Patch(i) && forall k :: j < k < |steps| ==> steps[k] != Unpatch(i)
  }

  /** The prefix was excluded at worker i, and not readmitted since. */
  ghost predicate IsExcludedBy(steps: seq<Step>, i: nat, p: string) {
    exists j :: 0 <= j < |steps| && steps[j] == Exclude(i, p) && forall k :: j < k < |steps| ==> steps[k] != Readmit(i, p)
  }

  /** The last filter that worker i was given agrees, if there was one. */
  ghost predicate IsLetThrough(steps: seq<Step>, i: nat, event: string) {
    forall j ::
      0 <= j < |steps| && steps[j].SetFilter? && steps[j].i == i
      && (forall k :: j < k < |steps| ==> !(steps[k].SetFilter? && steps[k].i == i))
      ==> steps[j].f(event)
  }

  /** What the steps say about a worker is what its fields say. */
  ghost predicate IsAsStepped(w: Worker, steps: seq<Step>, i: nat, event: string) {
    && (w.original.Some? <==> IsPatchedBy(steps, i))
    && (forall p :: p in w.excludes <==> IsExcludedBy(steps, i, p))
    && ((w.filter.Some? ==> w.filter.value(event)) <==> IsLetThrough(steps, i, event))
  }

  lemma {:induction false} RunIsAsStepped(setting: Setting, world: World, steps: seq<Step>, i: nat, event: string)
    requires IsInitial(world) && i < |world.workers|
    ensures var after := Run(setting, world, steps);
      && |after.workers| == |world.workers| && after.workers[i].hasRedis == world.workers[i].hasRedis
      && IsAsStepped(after.workers[i], steps, i, event)
  {
    if steps != [] {
      var init, last := steps[..|steps| - 1], steps[|steps| - 1];
      RunIsAsStepped(setting, world, init, i, event);
      RunNext(setting, world, steps);
      hide Run;
      StepIsAsStepped(setting, Run(setting, world, init), init, last, i, event);
      assert steps == init + [last];
    }
  }

  lemma StepIsAsStepped(setting: Setting, world: World, init: seq<Step>, last: Step, i: nat, event: string)
    requires i < |world.workers| && IsAsStepped(world.workers[i], init, i, event)
    ensures var after := Next(setting, world, last);
      && |after.workers| == |world.workers| && after.workers[i].hasRedis == world.workers[i].hasRedis
      && IsAsStepped(after.workers[i], init + [last], i, event)
  {
    var w := world.workers[i];
    StepOnlyQueues(setting, world, last, i);
    StepsNext(init, last, i, event);
    if IsEnabled(world, last) && last.i == i {
      SettledAsStepped(setting, w, init, last, i, event);
    }
    hide IsPatchedBy, IsExcludedBy, IsLetThrough, Settled, Next;
  }

  /** Besides worker i's own steps, only its queue changes. */
  lemma StepOnlyQueues(setting: Setting, world: World, step: Step, i: nat)
    requires i < |world.workers|
    ensures var after, w := Next(setting, world, step), world.workers[i];
      && |after.workers| == |world.workers|
      && after.workers[i] == (if IsEnabled(world, step) && step.i == i then Settled(setting, w, step) else w)
                             .(queue := after.workers[i].queue)
  {
    if IsEnabled(world, step) {
      hide Settled, Sent;
      var settled := if step.i == i then Settled(setting, world.workers[i], step) else world.workers[i];
      ReceivingOnlyQueues(setting, settled, Sent(setting, world.workers[step.i], step));
    }
  }

  lemma StepsNext(init: seq<Step>, last: Step, i: nat, event: string)
    ensures IsPatchedBy(init + [last], i) <==> last == Patch(i) || (IsPatchedBy(init, i) && last != Unpatch(i))
    ensures forall p :: IsExcludedBy(init + [last], i, p) <==> last == Exclude(i, p) || (IsExcludedBy(init, i, p) && last != Readmit(i, p))
    ensures IsLetThrough(init + [last], i, event) <==>
              if last.SetFilter? && last.i == i then last.f(event) else IsLetThrough(init, i, event)
  {
    var steps := init + [last];
    assert steps[|init|] == last && forall j :: 0 <= j < |init| ==> steps[j] == init[j];
  }

  lemma SettledAsStepped(setting: Setting, w: Worker, init: seq<Step>, last: Step, i: nat, event: string)
    requires IsAsStepped(w, init, i, event) && last.i == i && (last.Deliver? ==> w.queue != [])
    ensures Settled(setting, w, last).hasRedis == w.hasRedis
    ensures IsAsStepped(Settled(setting, w, last), init + [last], i, event)
  {
    StepsNext(init, last, i, event);
    hide IsPatchedBy, IsExcludedBy, IsLetThrough, DispatchVia, AddingAll, Adding, Dropping, Without, HandlersOf;
  }

  /** After any run, a dispatch by a caller of worker i adds exactly its message to what Redis took if the
      worker has Redis, its bus was patched and not unpatched since, the dispatch returns and Redis takes
      the message, every keyword argument is one that the event object takes, the marker is not there, no
      prefix excluded and not readmitted since fits, and the last filter agrees; otherwise it adds nothing. */
  lemma BroadcastsExactly(setting: Setting, world: World, steps: seq<Step>, i: nat, event: string, payload: nat, kwargs: Kwargs,
      survives: bool, accepted: bool)
    requires IsInitial(world) && i < |world.workers|
    ensures var before := Run(setting, world, steps).published;
      var after := Run(setting, world, steps + [Dispatch(i, event, payload, kwargs, survives, accepted)]).published;
      after == before +
        if && world.workers[i].hasRedis && accepted && survives
           && (exists j :: 0 <= j < |steps| && steps[j] == Patch(i) && forall k :: j < k < |steps| ==> steps[k] != Unpatch(i))
           && (forall k :: k in kwargs ==> k in setting.fields)
           && !("_broadcast_source" in kwargs && kwargs["_broadcast_source"] == "redis")
           && (forall p :: IsExcludedBy(steps, i, p) ==> !(p <= event))
           && IsLetThrough(steps, i, event)
        then [Message(event, payload, kwargs - {"_broadcast_source"})]
        else []
  {
    var step := Dispatch(i, event, payload, kwargs, survives, accepted);
    var all := steps + [step];
    assert all[..|all| - 1] == steps;
    RunNext(setting, world, all);
    PublishedExactly(setting, world, steps);
    RunIsAsStepped(setting, world, steps, i, event);
    hide Run, IsExcludedBy, IsLetThrough, Next, DispatchVia;
    StepPublishesExactly(setting, Run(setting, world, steps), step);
    assert IsPatchedBy(steps, i) <==>
      exists j :: 0 <= j < |steps| && steps[j] == Patch(i) && forall k :: j < k < |steps| ==> steps[k] != Unpatch(i);
  }

  /** For example: patching once, and dispatching without keyword arguments. */
  lemma PatchedWorkerBroadcasts(setting: Setting, world: World, i: nat, event: string, payload: nat)
    requires IsInitial(world) && i < |world.workers| && world.workers[i].hasRedis
    ensures Run(setting, world, [Patch(i)] + [Dispatch(i, event, payload, map[], true, true)]).published == [Message(event, payload, map[])]
    ensures Run(setting, world, [] + [Dispatch(i, event, payload, map[], true, true)]).published == []
  {
    BroadcastsExactly(setting, world, [Patch(i)], i, event, payload, map[], true, true);
    BroadcastsExactly(setting, world, [], i, event, payload, map[], true, true);
    hide Next;
    PublishedExactly(setting, world, [Patch(i)]);
    assert [Patch(i)][..0] == [] && [Patch(i)][0] == Patch(i);
    var none: Kwargs := map[];
    assert none - {"_broadcast_source"} == none;
    assert Qualifying(setting, world, [Patch(i)]) == [];
  }

  /** A subscription gets a message exactly if it is the bridge's own or a pattern that covers the event. */
  lemma {:induction false} CopiesExactly(setting: Setting, subscriptions: seq<string>, m: Message)
    ensures forall d :: d in Copies(setting, subscriptions, m) <==>
              d.message == m && d.pattern in subscriptions && (d.pattern == "swx:events:*" || setting.covers(d.pattern, m.event))
  {
    if subscriptions != [] {
      assert subscriptions == [subscriptions[0]] + subscriptions[1..];
      CopiesExactly(setting, subscriptions[1..], m);
    }
  }

  /** What a step publishes goes to the queue of every worker, once for each of its subscriptions that get
      it. */
  lemma StepQueues(setting: Setting, world: World, step: Step, i: nat)
    requires AllWrappedOnce(world) && i < |world.workers|
    ensures var after := Next(setting, world, step);
      && |after.workers| == |world.workers|
      && (Qualifies(setting, world, step) ==>
            after.workers[i].queue ==
            world.workers[i].queue + Copies(setting, world.workers[i].subscriptions, Message(step.event, step.payload, step.kwargs - {MARKER})))
  {
    if Qualifies(setting, world, step) {
      SentExactly(setting, world.workers[step.i], step);
      hide Copies, DispatchVia;
      OneReceived(setting, world.workers[i], Message(step.event, step.payload, step.kwargs - {MARKER}));
    }
  }

  lemma OneReceived(setting: Setting, w: Worker, m: Message)
    ensures Receiving(setting, w, [m]) == w.(queue := w.queue + Copies(setting, w.subscriptions, m))
  {
    assert [m][..0] == [];
  }

  // ---- What is delivered --------------------------------------------------------------------

  /** Everything that reached a worker's subscriptions, in order: what it handled, then what waits. */
  ghost function Line(w: Worker): seq<Delivery> {
    w.handled + w.queue
  }

  /** The messages that arrived for the bridge's own subscription. */
  function OwnMessages(ds: seq<Delivery>): seq<Message> {
    if ds == [] then []
    else if ds[0].pattern == OWN then [ds[0].message] + OwnMessages(ds[1..])
    else OwnMessages(ds[1..])
  }

  ghost predicate NoRepeats(ps: seq<string>) {
    forall i, j :: 0 <= i < j < |ps| ==> ps[i] != ps[j]
  }

  lemma {:induction false} OwnMessagesAppend(a: seq<Delivery>, b: seq<Delivery>)
    ensures OwnMessages(a + b) == OwnMessages(a) + OwnMessages(b)
  {
    if a == [] {
      assert a + b == b;
    } else {
      assert (a + b)[1..] == a[1..] + b;
      OwnMessagesAppend(a[1..], b);
    }
  }

  lemma {:induction false} OwnCopies(setting: Setting, subscriptions: seq<string>, m: Message)
    requires NoRepeats(subscriptions)
    ensures OwnMessages(Copies(setting, subscriptions, m)) == if OWN in subscriptions then [m] else []
  {
    if subscriptions != [] {
      var rest := Copies(setting, subscriptions[1..], m);
      OwnCopies(setting, subscriptions[1..], m);
      assert ([Delivery(subscriptions[0], m)] + rest)[1..] == rest;
      assert subscriptions == [subscriptions[0]] + subscriptions[1..];
    }
  }

  lemma {:induction false} OwnReceived(setting: Setting, w: Worker, ms: seq<Message>)
    requires NoRepeats(w.subscriptions) && OWN in w.subscriptions
    ensures OwnMessages(Line(Receiving(setting, w, ms))) == OwnMessages(Line(w)) + ms
    decreases |ms|
  {
    ReceivingOnlyQueues(setting, w, ms);
    if ms != [] {
      var init, last := ms[..|ms| - 1], ms[|ms| - 1];
      var before, copies := Receiving(setting, w, init), Copies(setting, w.subscriptions, last);
      ReceivingOnlyQueues(setting, w, init);
      OwnReceived(setting, w, init);
      OwnCopies(setting, w.subscriptions, last);
      assert Line(Receiving(setting, w, ms)) == Line(before) + copies;
      OwnMessagesAppend(Line(before), copies);
    }
  }

  ghost predicate Listens(w: Worker) {
    w.running && NoRepeats(w.subscriptions) && OWN in w.subscriptions
  }

  lemma {:induction false} AddingAllKeeps(subscriptions: seq<string>, ps: seq<string>)
    requires NoRepeats(subscriptions)
    ensures NoRepeats(AddingAll(subscriptions, ps))
    ensures forall p :: p in AddingAll(subscriptions, ps) <==> p in subscriptions || p in ps
  {
    if ps != [] {
      AddingAllKeeps(subscriptions, ps[..|ps| - 1]);
      assert ps == ps[..|ps| - 1] + [ps[|ps| - 1]];
    }
  }

  /** A bridge with Redis that starts listens from then on, to the event channels and to every custom
      pattern; starting it again changes nothing. Without Redis it never runs. */
  lemma StartListens(w: Worker)
    requires !w.running
    ensures w.hasRedis ==>
              && Listens(Started(w)) && Line(Started(w)) == Line(w) && Started(Started(w)) == Started(w)
              && forall p :: p in Started(w).subscriptions <==> p == OWN || p in w.customs
    ensures !w.hasRedis ==> Started(w) == w
  {
    AddingAllKeeps([OWN], w.customs);
  }

  /** Removing a handler undoes adding it, unless it was there before; the pattern goes with its last one. */
  lemma UnsubscribeUndoesSubscribe(w: Worker, p: string, h: nat)
    requires (p in w.customs <==> p in w.handlers) && (p in w.handlers ==> w.handlers[p] != [])
    requires p !in w.customs ==> p !in w.subscriptions
    requires h !in HandlersOf(w.handlers, p)
    ensures Unsubscribed(Subscribed(w, p, h), p, h) == w
  {
    WithoutLast(HandlersOf(w.handlers, p), h);
    if p in w.customs {
      assert w.handlers[p := w.handlers[p] + [h]][p := w.handlers[p]] == w.handlers;
    } else {
      assert w.handlers[p := [h]] - {p} == w.handlers;
      DroppingLast(w.customs, p);
      DroppingLast(w.subscriptions, p);
      DroppingAbsent(w.subscriptions, p);
    }
  }

  lemma {:induction false} WithoutLast(hs: seq<nat>, h: nat)
    requires h !in hs
    ensures Without(hs + [h], h) == hs
  {
    if hs == [] {
      assert ([] + [h])[1..] == [];
    } else {
      assert (hs + [h])[1..] == hs[1..] + [h];
      WithoutLast(hs[1..], h);
    }
  }

  lemma {:induction false} DroppingAbsent(ps: seq<string>, p: string)
    requires p !in ps
    ensures Dropping(ps, p) == ps
  {
    if ps != [] {
      DroppingAbsent(ps[1..], p);
    }
  }

  lemma {:induction false} DroppingLast(ps: seq<string>, p: string)
    requires p !in ps
    ensures Dropping(ps + [p], p) == ps
  {
    if ps == [] {
      assert [p][1..] == [];
    } else {
      assert (ps + [p])[1..] == ps[1..] + [p];
      DroppingLast(ps[1..], p);
    }
  }

  /** Steps that end worker i's own subscription. */
  predicate Detaches(step: Step, i: nat) {
    step == Step.Stop(i) || (step.Unsubscribe? && step.i == i && step.pattern == OWN)
  }

  lemma {:induction false} DroppingKeeps(ps: seq<string>, p: string)
    requires NoRepeats(ps)
    ensures NoRepeats(Dropping(ps, p)) && forall x :: x in Dropping(ps, p) <==> x in ps && x != p
  {
    if ps != [] {
      assert ps == [ps[0]] + ps[1..];
      DroppingKeeps(ps[1..], p);
      var rest := Dropping(ps[1..], p);
      assert forall i :: 0 <= i < |rest| ==> rest[i] in rest && rest[i] in ps[1..];
    }
  }

  lemma SettledListens(setting: Setting, w: Worker, step: Step)
    requires Listens(w) && !Detaches(step, step.i) && (step.Deliver? ==> w.queue != [])
    ensures Listens(Settled(setting, w, step)) && Line(Settled(setting, w, step)) == Line(w)
  {
    if !step.Dispatch? {
      SettledDrains(setting, w, step);
    }
    hide DispatchVia, Line, Without, AddingAll;
    if step.Unsubscribe? {
      DroppingKeeps(w.subscriptions, step.pattern);
    }
  }

  function SentAt(setting: Setting, world: World, step: Step): seq<Message> {
    if IsEnabled(world, step) then Sent(setting, world.workers[step.i], step) else []
  }

  /** Worker i still listens, and its own subscription got each message taken meanwhile once, in order. */
  ghost predicate HasReceived(before: World, after: World, i: nat) {
    && i < |before.workers| == |after.workers| && Listens(after.workers[i]) && before.published <= after.published
    && OwnMessages(Line(after.workers[i])) == OwnMessages(Line(before.workers[i])) + after.published[|before.published|..]
  }

  lemma StepDelivers(setting: Setting, world: World, step: Step, i: nat)
    requires i < |world.workers| && Listens(world.workers[i]) && !Detaches(step, i)
    ensures HasReceived(world, Next(setting, world, step), i)
  {
    if IsEnabled(world, step) {
      var w, ms := world.workers[i], Sent(setting, world.workers[step.i], step);
      if step.i == i {
        SettledListens(setting, w, step);
      }
      hide Sent, Settled;
      var settled := if step.i == i then Settled(setting, w, step) else w;
      ReceivingOnlyQueues(setting, settled, ms);
      OwnReceived(setting, settled, ms);
    }
  }

  lemma HasReceivedTransitive(a: World, b: World, c: World, i: nat)
    requires HasReceived(a, b, i) && HasReceived(b, c, i)
    ensures HasReceived(a, c, i)
  {
    hide Listens, OwnMessages, Line;
    assert c.published[|a.published|..] == b.published[|a.published|..] + c.published[|b.published|..];
  }

  lemma RunNext(setting: Setting, world: World, steps: seq<Step>)
    requires steps != []
    ensures Run(setting, world, steps) == Next(setting, Run(setting, world, steps[..|steps| - 1]), steps[|steps| - 1])
  {
  }

  /** Exactly once, in order: while a worker stays subscribed, its own subscription hands it every
      message that Redis takes, whatever else the workers do. */
  lemma {:induction false} EveryMessageArrivesOnce(setting: Setting, world: World, steps: seq<Step>, i: nat)
    requires i < |world.workers| && Listens(world.workers[i]) && forall k :: 0 <= k < |steps| ==> !Detaches(steps[k], i)
    ensures HasReceived(world, Run(setting, world, steps), i)
  {
    if steps != [] {
      hide Next, Run, Listens, Detaches, OwnMessages, Line;
      var init, last := steps[..|steps| - 1], steps[|steps| - 1];
      RunNext(setting, world, steps);
      EveryMessageArrivesOnce(setting, world, init, i);
      StepDelivers(setting, Run(setting, world, init), last, i);
      HasReceivedTransitive(world, Run(setting, world, init), Run(setting, world, steps), i);
    }
  }

  // ---- How much is delivered, and that it drains -----------------------------------------------

  function Subscriptions(steps: seq<Step>): nat {
    if steps == [] then 0
    else Subscriptions(steps[..|steps| - 1]) + if steps[|steps| - 1].Subscribe? then 1 else 0
  }

  lemma {:induction false} AddingAllSize(subscriptions: seq<string>, ps: seq<string>)
    ensures |AddingAll(subscriptions, ps)| <= |subscriptions| + |ps|
  {
    if ps != [] {
      AddingAllSize(subscriptions, ps[..|ps| - 1]);
    }
  }

  lemma {:induction false} DroppingSize(ps: seq<string>, p: string)
    ensures |Dropping(ps, p)| <= |ps|
  {
    if ps != [] {
      DroppingSize(ps[1..], p);
    }
  }

  lemma {:induction false} CopiesSize(setting: Setting, subscriptions: seq<string>, m: Message)
    ensures |Copies(setting, subscriptions, m)| <= |subscriptions|
  {
    if subscriptions != [] {
      CopiesSize(setting, subscriptions[1..], m);
    }
  }

  /** One delivery for each message and each of 1 + n subscriptions. */
  function Bound(messages: nat, n: nat): nat {
    messages * (1 + n)
  }

  lemma {:induction false} ReceivingSize(setting: Setting, w: Worker, ms: seq<Message>, n: nat)
    requires |w.subscriptions| <= 1 + n
    ensures |Line(Receiving(setting, w, ms))| <= |Line(w)| + Bound(|ms|, n)
  {
    ReceivingOnlyQueues(setting, w, ms);
    if ms != [] {
      var init := ms[..|ms| - 1];
      ReceivingSize(setting, w, init, n);
      ReceivingOnlyQueues(setting, w, init);
      CopiesSize(setting, w.subscriptions, ms[|ms| - 1]);
      assert Bound(|ms|, n) == Bound(|init|, n) + (1 + n);
    }
  }

  /** At most n custom patterns, and one subscription more. */
  ghost predicate SubscribesAtMost(w: Worker, n: nat) {
    |w.customs| <= n && |w.subscriptions| <= 1 + n
  }

  lemma SettledSize(setting: Setting, w: Worker, step: Step, n: nat)
    requires SubscribesAtMost(w, n) && (step.Deliver? ==> w.queue != [])
    ensures SubscribesAtMost(Settled(setting, w, step), if step.Subscribe? then n + 1 else n)
    ensures |Line(Settled(setting, w, step))| <= |Line(w)|
  {
    match step {
      case Start(_) => AddingAllSize([OWN], w.customs);
      case Unsubscribe(_, p, _) =>
        DroppingSize(w.customs, p);
        DroppingSize(w.subscriptions, p);
      case _ =>
    }
  }

  /** No more than one delivery for each message and each of 1 + n subscriptions. */
  ghost predicate IsBounded(world: World, i: nat, n: nat) {
    && i < |world.workers| && SubscribesAtMost(world.workers[i], n)
    && |Line(world.workers[i])| <= Bound(|world.published|, n)
  }

  lemma StepSize(setting: Setting, world: World, step: Step, i: nat, n: nat)
    requires IsBounded(world, i, n)
    ensures IsBounded(Next(setting, world, step), i, if step.Subscribe? then n + 1 else n)
  {
    var m := if step.Subscribe? then n + 1 else n;
    var sent := SentAt(setting, world, step);
    BoundGrows(|Line(world.workers[i])|, |world.published|, |sent|, n, m);
    hide Bound;
    if IsEnabled(world, step) {
      var w := world.workers[i];
      if step.i == i {
        SettledSize(setting, w, step, n);
      }
      hide Sent, Settled;
      var settled := if step.i == i then Settled(setting, w, step) else w;
      ReceivingOnlyQueues(setting, settled, sent);
      ReceivingSize(setting, settled, sent, m);
    }
  }

  lemma BoundGrows(line: nat, published: nat, sent: nat, n: nat, m: nat)
    requires line <= Bound(published, n) && n <= m
    ensures line + Bound(sent, m) <= Bound(published + sent, m)
  {
    assert published * (1 + n) <= published * (1 + m);
  }

  /** However a run goes, no worker gets more than one delivery per message and subscription. */
  lemma {:induction false} DeliveriesAreBounded(setting: Setting, world: World, steps: seq<Step>, i: nat)
    requires IsInitial(world) && i < |world.workers|
    ensures IsBounded(Run(setting, world, steps), i, Subscriptions(steps))
  {
    if steps == [] {
      assert Line(world.workers[i]) == [];
    } else {
      hide Next, Run, IsInitial, IsBounded;
      var init := steps[..|steps| - 1];
      RunNext(setting, world, steps);
      DeliveriesAreBounded(setting, world, init, i);
      StepSize(setting, Run(setting, world, init), steps[|steps| - 1], i, Subscriptions(init));
    }
  }

  /** The deliveries at worker i that a run makes. */
  ghost function Delivered(setting: Setting, world: World, steps: seq<Step>, i: nat): nat {
    if steps == [] then 0
    else
      var init, last := steps[..|steps| - 1], steps[|steps| - 1];
      Delivered(setting, world, init, i) +
      if last.Deliver? && last.i == i && IsEnabled(Run(setting, world, init), last) then 1 else 0
  }

  /** Only dispatches by callers publish. */
  lemma OthersSendNothing(setting: Setting, world: World, step: Step)
    requires !step.Dispatch?
    ensures SentAt(setting, world, step) == []
    ensures IsEnabled(world, step) ==>
              Next(setting, world, step) == world.(workers := world.workers[step.i := Settled(setting, world.workers[step.i], step)])
  {
    if IsEnabled(world, step) && step.Deliver? {
      var w := world.workers[step.i];
      var m := w.queue[0].message;
      FromRedisIsNotPublished(w, w.entry, setting.fields, m.event, m.payload, FROM_REDIS, step.survives);
    }
  }

  /** A delivery takes one message off its queue, and nothing but stopping takes any other. */
  ghost predicate HasDrained(before: World, after: World, i: nat, delivered: nat, stopped: bool) {
    && i < |before.workers| == |after.workers| && after.published == before.published
    && |after.workers[i].queue| + delivered <= |before.workers[i].queue|
    && (!stopped ==> Line(after.workers[i]) == Line(before.workers[i])
                     && |after.workers[i].queue| + delivered == |before.workers[i].queue|)
  }

  lemma StepDrains(setting: Setting, world: World, step: Step, i: nat)
    requires i < |world.workers| && !step.Dispatch?
    ensures HasDrained(world, Next(setting, world, step), i,
                       if step.Deliver? && step.i == i && IsEnabled(world, step) then 1 else 0, step == Step.Stop(i))
  {
    OthersSendNothing(setting, world, step);
    if IsEnabled(world, step) && step.i == i {
      SettledDrains(setting, world.workers[i], step);
    }
    hide Next, Settled, Line;
  }

  lemma SettledDrains(setting: Setting, w: Worker, step: Step)
    requires !step.Dispatch? && (step.Deliver? ==> w.queue != [])
    ensures var v := Settled(setting, w, step);
      && |v.queue| + (if step.Deliver? then 1 else 0) <= |w.queue|
      && (!step.Stop? ==> Line(v) == Line(w) && |v.queue| + (if step.Deliver? then 1 else 0) == |w.queue|)
  {
    hide DispatchVia, AddingAll, Dropping, Without;
    if step.Deliver? {
      assert w.queue == [w.queue[0]] + w.queue[1..];
    }
  }

  /** Once callers dispatch nothing, nothing more is published, whatever else happens, and each delivery
      takes one message off its queue: a queue is empty after as many deliveries as it was long. */
  lemma {:induction false} WithoutDispatchesDrains(setting: Setting, world: World, steps: seq<Step>, i: nat)
    requires i < |world.workers| && forall k :: 0 <= k < |steps| ==> !steps[k].Dispatch?
    ensures HasDrained(world, Run(setting, world, steps), i, Delivered(setting, world, steps, i), Step.Stop(i) in steps)
  {
    if steps != [] {
      var init, last := steps[..|steps| - 1], steps[|steps| - 1];
      var mid := Run(setting, world, init);
      RunNext(setting, world, steps);
      assert steps == init + [last];
      hide Next, IsEnabled, Line, Run;
      WithoutDispatchesDrains(setting, world, init, i);
      StepDrains(setting, mid, last, i);
    }
  }

  // ---- What a delivery reaches ----------------------------------------------------------------

  lemma {:induction false} DispatchReturnsExactly(w: Worker, entry: Entry, fields: set<string>, event: string, payload: nat,
      kwargs: Kwargs, survives: bool)
    ensures DispatchVia(w, entry, fields, event, payload, kwargs, survives).ok <==>
            (forall k :: k in kwargs ==> k in fields) && survives
  {
    match entry {
      case Plain =>
      case Broadcasting(inner) => DispatchReturnsExactly(w, inner, fields, event, payload, kwargs, survives);
    }
  }

  /** A delivery reaches listeners exactly if the event object takes the marker that the bridge itself
      passes along. */
  lemma DeliveryReachesExactly(setting: Setting, w: Worker, step: Step)
    requires step.Deliver? && w.queue != []
    ensures Settled(setting, w, step).reached == w.reached +
              if w.queue[0].message.event != "" && MARKER in setting.fields && step.survives
              then [Reached(w.queue[0], if w.queue[0].pattern in w.customs && w.queue[0].pattern in w.handlers
                                        then w.handlers[w.queue[0].pattern] else [])]
              else []
  {
    var m := w.queue[0].message;
    DispatchReturnsExactly(w.(queue := w.queue[1..]), w.entry, setting.fields, m.event, m.payload, FROM_REDIS, step.survives);
    assert MARKER in FROM_REDIS;
  }

  /** The event object does not take it, so over every run no delivery reaches any listener. */
  lemma {:induction false} NoDeliveryReachesListeners(setting: Setting, world: World, steps: seq<Step>, i: nat)
    requires IsInitial(world) && setting.fields == EVENT_FIELDS && i < |world.workers|
    ensures |Run(setting, world, steps).workers| == |world.workers| && Run(setting, world, steps).workers[i].reached == []
  {
    if steps != [] {
      var init, last := steps[..|steps| - 1], steps[|steps| - 1];
      var mid := Run(setting, world, init);
      NoDeliveryReachesListeners(setting, world, init, i);
      StepReachesNothing(setting, mid, last, i);
    }
  }

  lemma StepReachesNothing(setting: Setting, world: World, step: Step, i: nat)
    requires setting.fields == EVENT_FIELDS && i < |world.workers|
    ensures var after := Next(setting, world, step);
      |after.workers| == |world.workers| && after.workers[i].reached == world.workers[i].reached
  {
    if IsEnabled(world, step) {
      var w := world.workers[step.i];
      if step.Deliver? {
        assert |MARKER| == 17 && MARKER !in EVENT_FIELDS;
        DeliveryReachesExactly(setting, w, step);
      }
      var settled := if step.i == i then Settled(setting, w, step) else world.workers[i];
      ReceivingOnlyQueues(setting, settled, Sent(setting, w, step));
    }
  }
}
