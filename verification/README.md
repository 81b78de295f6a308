# SwX core: verified models

This project models the stateful parts of the SwX core and proves what they promise. Each module
follows one component:

| module | component |
|---|---|
| `Digraph` | walks, cycles and topological orders, shared by the container and the provider check |
| `Resolution`, `Ioc`, `ContainerRuns` | the service container: `Resolution` is an evaluator without any cache, `Ioc.Container` the real thing, `ContainerRuns` what callers do with it over time |
| `Providers` | the cycle check of the providers' `depends` lists |
| `RateLimit`, `RateLedger`, `RateCounter`, `RateLimitMiddleware` | the sliding window, what a key that several limits share remembers, the counter, and the rule loop in front of it |
| `L1`, `AuthCache`, `AuthCacheCalls` | the bounded process-local cache, the two-level cache as a protocol of several processes, and the calls of one process as runs of it |
| `EventPattern`, `Registrations`, `EventBus` | wildcard patterns, the stable sort of listeners, and the event bus |
| `Bridge` | the Redis bridge, for one worker and for runs of several workers |
| `Lifecycle` | starting services with rollback and stopping them in reverse |
| `Version` | version strings: printing, parsing, ordering, the compatibility check |

Objects that change in place are classes whose methods are proved against functions and predicates on
values; the theorems about whole runs are lemmas about those functions, or invariants that every
method keeps. Clocks, Redis, factories, listeners and services appear as parameters: a clock reading,
whether Redis accepted a message, what a factory asks for and whether it raises, which listener stops
or fails. Times are real numbers.

## What turned out different from the documentation

- A name without a binding is built as the string it is, which asks for the same name again, so it
  fails with a circular dependency error (`Ioc.UnknownFailsByCycle`, `Resolution.BuildableByBindings`).
- `bind` and `singleton` leave an object that is already cached (`Ioc.Container.Bind`).
- Contextual redirects are followed without pushing a name on the stack. On one stack, following them
  ends exactly if no walk along them closes (`Ioc.FollowingEndsExactly`, `Ioc.FitsExactly`); a redirect of
  a name to itself, while another name that needs it is built, never ends (`Ioc.SelfRedirectNeverEnds`),
  and the same redirect while the name itself is built is never followed (`Ioc.OwnRedirectEnds`).
- The factory of a singleton can run to its end more than once: if an extender fails after it, nothing is
  cached. Without contextual bindings that happens exactly if an extender raises or cannot be given a
  dependency (`Ioc.RunsInVainExactly`, `Ioc.CompletesAtMostOnce`, `Ioc.Container.MakeRepeatedly`,
  `ContainerRuns.SingletonFactoryRunsTwice`).
- Distinct namespaces are not enough to keep rate limits apart: two namespaces share a key for some
  pair of addresses exactly if they are the same or one extends the other
  (`RateLimitMiddleware.KeysCollideExactly`). Sharing a key breaks the bound of a limit of two or more
  requests exactly if a sharer has a shorter window (`RateLedger.SharedBoundExactly`,
  `RateLedger.SharedKeyForgets`).
- The bulk eviction is visible exactly for windows above 3600 seconds
  (`RateLimit.EvictionIsVisibleExactly`, `RateLimit.EvictionBreaksLongWindows`).
- An invalidation does not reach the first level of other processes
  (`AuthCache.InvalidationLeavesOtherProcesses`, `AuthCache.InvalidatedIsStillReturned`).
- `forget` removes all wildcard registrations of a listener, whatever their patterns
  (`EventBus.ForgottenBag`).
- A failing listener without a `__name__` makes the dispatch itself fail: the error report asks for that
  name. Later listeners do not run and nothing is removed (`EventBus.DispatchFailsExactly`), so a listener
  for once that ran before it runs again at the next dispatch (`EventBus.OnceListenerRunsTwice`); this is
  the only way in which it does (`EventBus.CompletesAtMostOnceExactly`).
- A message that the bridge hands to its own bus carries a keyword argument that the event object does
  not take, so the dispatch raises and no listener and no custom handler runs for it
  (`Bridge.DeliveryReachesExactly`, `Bridge.NoDeliveryReachesListeners`). An event that a caller
  dispatches with any other unknown keyword argument is not published either (`Bridge.PublishedExactly`).
- `start_all` forgets what is still started without stopping it (`Lifecycle.IdleRunIsClosedExactly`).
- A requirement without an operator asks for exactly that version, and `~=` is an error
  (`Version.BareRequirementDiffersExactly`, `Version.CompatibleReleaseIsUnreachable`).

## Model

| member | source | states |
|---|---|---|
| Digraph.TopologicalMeansAcyclic | swx_core/bootstrap.py:88-118 | nothing listed in an order that puts successors first lies on or leads to a cycle |
| Digraph.FaultExactly | swx_core/container/container.py:116-193 | no bound on the depth suffices for a node exactly if some walk from it closes a cycle or ends in a bad node |
| Digraph.ClosedPathFails | swx_core/container/container.py:121-123 | a walk that closes makes its start fail |
| Digraph.EndsExactly | swx_core/container/container.py:125-130 | following edges from a node of a finite graph ends exactly if no walk from it closes |
| Digraph.RankMeansSound | swx_core/container/container.py:125-130 | ranks that decrease along edges bound every walk |
| Resolution.EvalDefined | swx_core/container/container.py:136-218 | the cache-free evaluator succeeds at depth n exactly if the dependency graph ends within n steps and nothing on the way raises |
| Resolution.YieldsUnique | swx_core/container/container.py:136-218 | a name has at most one cache-free tree, whatever depth is allowed |
| Resolution.YieldsExactlyBuildable | swx_core/container/container.py:136-218 | a name has a cache-free tree exactly if it is buildable |
| Resolution.NamesAround | swx_core/container/container.py:121-218 | building stays in a finite set of names, so the search for a fault ends |
| Resolution.BuildableExactly | swx_core/container/container.py:121-193 | a name has a cache-free tree exactly if no walk from it closes a cycle (an unbound name is its own dependency) or meets a name whose own building raises |
| Resolution.BuildableByBindings | swx_core/container/container.py:121-193 | a name can be built exactly if every name it reaches is given, bound or an alias that leads on, none of them raises, and no cycle among such names is reached |
| Resolution.RaisesBelow | swx_core/container/container.py:186-218 | what a dependency reaches that raises, the name reaches |
| Resolution.YieldsExactly | swx_core/container/container.py:136-218 | what is given is built as given, an unbound alias as what it leads to, an unbound name not at all, and a bound name as its right-hand side extended by all its extenders |
| Resolution.ConcreteYieldsExactly | swx_core/container/container.py:186-218 | a right-hand side that leads to a name gives what that or, if it is an alias, what it leads to gives; a factory or class gives its maker over what its dependencies give, in order; a factory that raises and a class with an unbound parameter without default give nothing |
| Resolution.InjectedParamsExactly | swx_core/container/container.py:199-212 | the injected parameters are those annotated with a bound name or an alias, with a default or without, in order |
| Resolution.ExtendedYieldsExactly | swx_core/container/container.py:272-275 | each extender wraps what the one before it gave, with what its own dependencies give |
| Ioc.Container.Bind | swx_core/container/container.py:47-78 | the binding is replaced, cached objects stay |
| Ioc.Container.Instance | swx_core/container/container.py:80-84 | the object is bound and cached |
| Ioc.Container.Override | swx_core/container/container.py:305-311 | the binding becomes transient and the cached instance of this name, and of no other, is dropped |
| Ioc.Container.Forget | swx_core/container/container.py:314-317 | binding, instance and aliases of this name go, everything else stays |
| Ioc.Container.Alias | swx_core/container/container.py:111-112 | the alias leads to the name |
| Ioc.Container.AddContextual | swx_core/container/container.py:91-99 | the redirect is added for this pair and no other |
| Ioc.Container.Extend | swx_core/container/container.py:269-270 | the extender comes last |
| Ioc.Container.Flush | swx_core/container/container.py:319-328 | everything but the rebinding callbacks is forgotten |
| Ioc.Container.Fresh | swx_core/container/container.py:288-294 | the cached instance goes; a name with rebinding callbacks is made again as if it had never been cached, so a factory gives a new object, which is then the shared one |
| Ioc.Container.ContextualConcrete | swx_core/container/container.py:225-230 | the loop from the top of the stack finds the redirect of the innermost name that has one |
| Ioc.InnermostWins | swx_core/container/container.py:225-230 | of several redirects for a name the one of the innermost name on the stack counts, and one to the empty name is none |
| Ioc.Container.Make | swx_core/container/container.py:116-134 | always terminates under a fitting view and leaves the build stack as it was, whether it returns or fails; the caches only grow, by singletons and scoped names, with one completed run of its right-hand side per new singleton and one more each time an extender fails after it; kept objects are shared and others are new, made of recorded parts, unless a redirect answers; a failure with an empty stack keeps nothing; without contextual bindings the outcome is that of the cache-free evaluator, a reported cycle is a real walk that closes, and any other error comes from a reached name that raises it; what is cached is returned and changes nothing; a redirected request gives the given object, a new one over recorded parts, or the cached singleton that the redirect leads to |
| Ioc.Container.ResolveOnStack | swx_core/container/container.py:130-134 | the same, with the name on the stack meanwhile |
| Ioc.Container.Resolve | swx_core/container/container.py:136-178 | a cached object is returned, otherwise one is built, extended and kept as its binding says; a failed build keeps nothing |
| Ioc.Container.Store | swx_core/container/container.py:158-170 | only singletons and scoped names are kept, each in its cache |
| Ioc.Container.Construct | swx_core/container/container.py:147-178 | an uncached name is built and extended as the cache-free evaluator does; whether its right-hand side ran to its end is known, also when it fails |
| Ioc.Container.ExtendBuilt | swx_core/container/container.py:156-158 | the end of a right-hand side is counted before the extenders run; without contextual bindings they fail exactly if one of them raises or cannot be given a dependency |
| Ioc.Container.Build | swx_core/container/container.py:180-218 | the right-hand side of a binding gives the evaluator's tree, in a new object with one recorded part for each dependency; if it fails, it raises itself or one of its dependencies failed that way |
| Ioc.Container.MakeAll | swx_core/container/container.py:202-210 | dependencies are made in order until one fails; the singletons among the results are the cached ones |
| Ioc.Container.ApplyExtender | swx_core/container/container.py:272-275 | one extender wraps the instance in a new object, with one recorded part for each dependency |
| Ioc.Container.ApplyExtenders | swx_core/container/container.py:272-275 | all extenders of the name, in order of registration |
| Ioc.Container.RunScope | swx_core/container/container.py:240-248 | a scope restores the enclosing scoped cache exactly and leaves the caches as if it had only made what it made |
| Ioc.Container.Run | swx_core/container/container.py:116-248 | over every run of requests and nested scopes kept objects are the ones still cached, and without contextual bindings all answers are those of the cache-free evaluator |
| Ioc.Container.RunCommand | swx_core/container/container.py:116-248 | the same for one request or one scope |
| Ioc.Container.MakeRepeatedly | swx_core/container/container.py:156-158 | if the extenders of a singleton break, its right-hand side runs to its end in every request for it |
| Ioc.RunsInVainExactly | swx_core/container/container.py:156-161 | a request for an uncached singleton lets its right-hand side run to its end and caches nothing exactly if its extenders break |
| Ioc.CompletesAtMostOnce | swx_core/container/container.py:150-161 | if they do not, the right-hand side runs to its end at most once in a run, exactly when the singleton becomes cached |
| Ioc.ConstructedIsAnswer | swx_core/container/container.py:156-158 | once the right-hand side ran to its end, the name fails exactly if an extender breaks |
| Ioc.FaithfulStays | swx_core/container/container.py:136-178 | later growth takes no earlier answer back |
| Ioc.SingletonIdentity | swx_core/container/container.py:111-117 | all requests of a run for a singleton, direct or through aliases, in or out of scopes, get one object |
| Ioc.SingletonPartIsCached | swx_core/container/container.py:150-161 | an object made in a run by a factory, class or extender that asks for a singleton, without a redirect, holds the object that is cached for it at the end of the run, and no other |
| Ioc.ServiceHoldsSingleton | swx_core/container/container.py:150-161 | a service made anew in a run holds the cached object of each singleton it asks for, so all such services share it |
| Ioc.ScopedIdentity | swx_core/container/container.py:163-172 | within one scope all requests for a scoped name get one object |
| Ioc.SucceedsExactlyWithoutFault | swx_core/container/container.py:116-193 | `make` returns exactly if no walk along dependencies closes a cycle or meets a name that raises |
| Ioc.FailsExactlyByCycle | swx_core/container/container.py:116-193 | if no reached name raises, `make` fails exactly if a cycle is reached, and then with a circular dependency error |
| Ioc.UnknownFailsByCycle | swx_core/container/container.py:146-148 | a name that is neither bound nor an alias of another fails with a circular dependency error |
| Ioc.PartFails | swx_core/container/container.py:186-218 | the failure of a right-hand side or an extender is the failure of the name, with the same error |
| Ioc.AnswersAgree | swx_core/container/container.py:116-193 | a request has the same outcome and tree whatever was cached before, also by failed calls |
| Ioc.FollowingEndsExactly | swx_core/container/container.py:125-130 | on one stack, following redirects from a name ends within some number of steps exactly if no walk along them closes |
| Ioc.FitsExactly | swx_core/container/container.py:125-134 | requests have a fitting plan exactly if on no stack that they can reach a walk along redirects closes |
| Ioc.ViewExists | swx_core/container/container.py:125-134 | if that holds, the theorems apply to these requests |
| Ioc.PlainRedirectsEnd | swx_core/container/container.py:225-230 | without contextual bindings it always holds |
| Ioc.UnreachedRedirectsEnd | swx_core/container/container.py:225-230 | it also holds if no name that a request builds has contextual bindings, whatever these are |
| Ioc.SelfRedirectNeverEnds | swx_core/container/container.py:125-130 | a redirect of a name to itself, while another name that needs it is built, outlasts every number of steps, and a request for the other name has no plan |
| Ioc.OwnRedirectEnds | swx_core/container/container.py:121-128 | a redirect of a name to itself, while it is built itself, is never followed |
| ContainerRuns.Request | swx_core/container/container.py:116-134 | a request with nothing being built needs no more than that redirects end on the stacks it can reach; the answer is shared or a new object made of recorded parts; without contextual bindings it gives what the cache-free evaluator gives from what is cached; a name that is an alias is led on first, and what is cached is returned |
| ContainerRuns.RequestThroughAlias | swx_core/container/container.py:111-117 | after `alias` a request by the alias and one by the name it leads to have the same outcome and tree, and for a cached, singleton or scoped name the same object |
| ContainerRuns.Configure | swx_core/container/container.py:47-112 | each configuring action changes exactly its part of the setup and of the caches |
| ContainerRuns.Refresh | swx_core/container/container.py:288-294 | dropping and making a name again leaves every other singleton alone |
| ContainerRuns.PerformOne | swx_core/container/container.py:116-328 | one action of any kind keeps every singleton that it does not reset, and gives the reply and the state that belong to it |
| ContainerRuns.Perform | swx_core/container/container.py:116-328 | over every run of requests, scopes, bindings, overrides, aliases, redirects and resets, with contextual bindings or without, every singleton and every scoped name that no action resets is kept; the run goes through the states that its actions give, one after the other |
| ContainerRuns.SingletonOverRun | swx_core/container/container.py:150-161 | then its right-hand side runs to its end once if it becomes cached in the run, and once more for each request in which an extender of it failed afterwards, which is never if it has no extenders; all answers for it, and all parts given for it to objects made in the run, are one object |
| ContainerRuns.SingletonFactoryRunsTwice | swx_core/container/container.py:156-161 | a singleton with an extender that raises: two requests fail, and its factory runs to its end in both |
| ContainerRuns.ScopedOverRun | swx_core/container/container.py:163-172 | a scoped name that no action rebinds is given as one object in each scope, whatever else is bound, overridden or forgotten in between |
| Providers.BuildNameMap | swx_core/bootstrap.py:97-99 | every declared name is mapped, to the last class of that name |
| Providers.Search.Dfs | swx_core/bootstrap.py:104-115 | terminates; either the ended visits form a topological order that contains the name, or the error is a walk of real edges that closes |
| Providers.VisitAll | swx_core/bootstrap.py:101-118 | the loop gives a topological order of all providers or a real cycle |
| Providers.ValidateProviderDependencies | swx_core/bootstrap.py:88-118 | raises exactly if a cycle can be reached from the providers; the error shows a real one, and acceptance has an order that respects every edge |
| Providers.RealCycleMeansHasCycle | swx_core/bootstrap.py:78-85 | an error that shows a cycle refutes acyclicity |
| Providers.OrderMeansNoCycle | swx_core/bootstrap.py:88-118 | a dependency order refutes cycles |
| Providers.HasCycleExactly | swx_core/bootstrap.py:88-118 | a cycle can be reached exactly if some walk from a declared name, each time to a name in the `depends` list of the last provider of that name, comes back to a name it met |
| Providers.DependsOnLast | swx_core/bootstrap.py:97-112 | the edges from a name are the `depends` list of the last provider of that name |
| RateLimit.SpacedCount | swx_core/middleware/auth_rate_limit.py:97-115 | a history whose entries are spaced has at most max_requests entries in every half-open interval one window long |
| RateLimit.AllowedKeepsSpaced | swx_core/middleware/auth_rate_limit.py:106-115 | recording an allowed request keeps the history spaced |
| RateLimit.RecentIsBounded | swx_core/middleware/auth_rate_limit.py:106-109 | at most max_requests timestamps are inside the window |
| RateLimit.IdealAllowsExactly | swx_core/middleware/auth_rate_limit.py:106-112 | a request is allowed exactly if fewer than max_requests were allowed less than one window before |
| RateLimit.RetryAfterIsSufficientAndTight | swx_core/middleware/auth_rate_limit.py:109-112 | the delay lies between 1 and window + 1; after it a call is allowed, and more than one second before its end a call is denied |
| RateLimit.EvictionIsAllOrNothing | swx_core/middleware/auth_rate_limit.py:80-95 | on sorted timestamps the eviction never shortens a list |
| RateLimit.EvictionIsVisibleExactly | swx_core/middleware/auth_rate_limit.py:83-95 | an eviction changes what a check sees exactly if the newest timestamp is past 3600 seconds and inside the window |
| RateLimit.EvictionBreaksLongWindows | swx_core/middleware/auth_rate_limit.py:85-89 | a two-hour window lets a request in early after an eviction |
| RateLedger.CheckedLists | swx_core/middleware/auth_rate_limit.py:106-114 | after a check the list is the trimmed one, with the request added if it was allowed |
| RateLedger.ForgettingIsVisibleExactly | swx_core/middleware/auth_rate_limit.py:107-109 | a check sees the whole history of its window exactly if no timestamp inside it was forgotten |
| RateLedger.CheckedStaysGuarded | swx_core/middleware/auth_rate_limit.py:97-115 | a check keeps what a limit relies on, unless its own limit undercuts that one |
| RateLedger.EvictedLists | swx_core/middleware/auth_rate_limit.py:80-95 | an eviction forgets a whole key or nothing of it |
| RateLedger.EvictedStaysGuarded | swx_core/middleware/auth_rate_limit.py:80-95 | an eviction keeps what a limit of at most 3600 seconds relies on |
| RateLedger.RunStaysGuarded | swx_core/middleware/auth_rate_limit.py:97-115 | over every run of checks on one key, a limit that no sharer undercuts keeps what it relies on |
| RateLedger.ViolatingRun | swx_core/middleware/auth_rate_limit.py:107-114 | otherwise some run breaks its bound: a burst, one check of the sharer, and one more |
| RateLedger.SharedBoundExactly | swx_core/middleware/auth_rate_limit.py:97-115 | on a key shared by any limits, a limit keeps its bound over every run exactly if no sharer undercuts it |
| RateLedger.SharedKeyForgets | swx_core/middleware/auth_rate_limit.py:107-114 | a check of one request per second lets a third request through that two per minute forbid |
| RateCounter.InMemoryCounter.EvictExpired | swx_core/middleware/auth_rate_limit.py:80-95 | every key is kept, filtered or dropped as its timestamps say |
| RateCounter.EvictedExactly | swx_core/middleware/auth_rate_limit.py:80-95 | a key stays exactly if one of its timestamps is less than 3600 seconds old |
| RateCounter.InMemoryCounter.DropKeys | swx_core/middleware/auth_rate_limit.py:94-95 | exactly the listed keys go |
| RateCounter.InMemoryCounter.EvictIfCrowded | swx_core/middleware/auth_rate_limit.py:102-104 | an eviction happens above 100 000 keys, and the lists stay what the histories and evictions say |
| RateCounter.InMemoryCounter.CheckKey | swx_core/middleware/auth_rate_limit.py:106-115 | one key is trimmed and, if allowed, extended; no other key changes |
| RateCounter.InMemoryCounter.CheckAndIncrement | swx_core/middleware/auth_rate_limit.py:97-115 | for every key and limit, the decision, the new counts and the new history of every key, after an eviction if there was one |
| RateLimitMiddleware.MatchesRegardlessOfCase | swx_core/middleware/auth_rate_limit.py:56-64 | the letter case of the method does not matter, an exact path makes the prefix irrelevant, and a match is the exact path or begins with the prefix |
| RateLimitMiddleware.MatchesExactly | swx_core/middleware/auth_rate_limit.py:56-64 | a rule applies exactly if it lists no methods or the request's method with its letters raised, and the path is the exact path or, without one, begins with the non-empty prefix |
| RateLimitMiddleware.LoginRuleMatches | swx_core/middleware/auth_rate_limit.py:56-64 | a rule for POST on a prefix applies to a POST or post request below it, and to no GET request |
| RateLimitMiddleware.KeysCollideExactly | swx_core/middleware/auth_rate_limit.py:160 | two namespaces share a key for some addresses exactly if they are the same or one extends the other by a colon and what may begin an address |
| RateLimitMiddleware.SameKeyMeansCollide | swx_core/middleware/auth_rate_limit.py:160 | keys of different addresses only coincide for different namespaces |
| RateLimitMiddleware.ExactDecision | swx_core/middleware/auth_rate_limit.py:103-115 | a check that remembers its window decides as the full history does, evictions included |
| RateLimitMiddleware.AuthRateLimitMiddleware.CheckRule | swx_core/middleware/auth_rate_limit.py:156-164 | one rule's check adds its stamp exactly if it allows, and decides as the full history does unless a rule that may share its key has a shorter window |
| RateLimitMiddleware.AuthRateLimitMiddleware.CheckRules | swx_core/middleware/auth_rate_limit.py:156-178 | the rules are checked in order up to the first that does not allow the request |
| RateLimitMiddleware.AuthRateLimitMiddleware.Call | swx_core/middleware/auth_rate_limit.py:147-181 | for every list of rules, what is recorded and what passes; if no rule has a sharer with a shorter window, the request passes exactly if every matching rule allows it, and otherwise the first rule that does not is reported |
| RateLimitMiddleware.AuthRateLimitMiddleware.AtMostMaxRequests | swx_core/middleware/auth_rate_limit.py:156-181 | over every run, for every rule that no rule sharing its keys undercuts, every address and every half-open interval one window long, at most max_requests matching requests reached the application |
| RateLimitMiddleware.MakeBurst | swx_core/middleware/auth_rate_limit.py:97-181 | of the requests that one address makes within one window against a fresh limiter with one matching rule, the first max_requests pass and all others are refused in the name of the rule |
| RateLimitMiddleware.SixLogins | swx_core/middleware/auth_rate_limit.py:147-181 | the sixth login within a minute is refused |
| L1.SlotsFit | swx_core/auth/auth_cache.py:53-57 | entries with distinct insertion numbers in an interval are at most as many as the interval is long |
| L1.OldestExists | swx_core/auth/auth_cache.py:55 | a non-empty cache has an oldest key |
| L1.PutKeepsOldest | swx_core/auth/auth_cache.py:53-57 | setting a key, new or present, leaves the key that is evicted next the same |
| L1.L1Cache.Get | swx_core/auth/auth_cache.py:43-51 | a hit is the value last set for the key, neither deleted nor expired; an expired entry goes |
| L1.L1Cache.Set | swx_core/auth/auth_cache.py:53-57 | the size never exceeds max_entries; an eviction takes the oldest key, after at least max_entries insertions of other keys, and an update keeps its key's place |
| L1.L1Cache.MakeRoom | swx_core/auth/auth_cache.py:54-56 | evicts exactly if the cache is full and the key is new; with no room at all it fails |
| L1.L1Cache.Delete | swx_core/auth/auth_cache.py:59-60 | the key goes and no other |
| L1.L1Cache.Clear | swx_core/auth/auth_cache.py:62-63 | nothing is left |
| L1.L1Cache.DeleteByPrefix | swx_core/auth/auth_cache.py:65-68 | exactly the keys with the prefix go |
| AuthCache.StepKeepsInv | swx_core/auth/auth_cache.py:104-208 | every step of every process keeps the freshness of all entries, fetches and pending writes |
| AuthCache.StrippedKeepsTheRest | swx_core/auth/auth_cache.py:124-136 | only the password hash is left out |
| AuthCache.ReturnedIsRecent | swx_core/auth/auth_cache.py:104-136 | over every run of several processes, what a read returns was set for that key, without the password hash, less than two times to live (plus twice the lag of a call) before |
| AuthCache.ReturnedIsAlmostThatOld | swx_core/auth/auth_cache.py:104-136 | the bound is tight: for every small time there is a run from the start that ends in an answer younger than the bound by just that |
| AuthCache.InvalidationTakesEffect | swx_core/auth/auth_cache.py:138-148 | after a successful second-level delete with no later write, no process returns anything for the key once one time to live has passed, plus the lag of a read in flight |
| AuthCache.InvalidationLeavesOtherProcesses | swx_core/auth/auth_cache.py:138-148 | after another process invalidated a key, a read is answered exactly if its own first level has a live entry, and by that entry |
| AuthCache.InvalidatedIsStillReturned | swx_core/auth/auth_cache.py:138-148 | a run from the start that ends in such an answer |
| AuthCacheCalls.CacheOfProcess.GetProfile | swx_core/auth/auth_cache.py:104-122 | a call is a run of the protocol that ends in its answer; it is answered exactly if the first level hits, or Redis works and has a live entry and the first level has room |
| AuthCacheCalls.CacheOfProcess.FetchProfile | swx_core/auth/auth_cache.py:110-122 | the part of a read after the first level missed |
| AuthCacheCalls.CacheOfProcess.SetProfile | swx_core/auth/auth_cache.py:124-136 | a call is a run of the protocol; the profile without the password hash is found at once in the first level, and in the second if Redis works; without room in the first level the call fails before the second |
| AuthCacheCalls.CacheOfProcess.WriteShared | swx_core/auth/auth_cache.py:129-136 | what the first level keeps is sent to the second, and no write stays pending |
| AuthCacheCalls.CacheOfProcess.InvalidateProfile | swx_core/auth/auth_cache.py:138-148 | a call is a run of the protocol that drops the key from this first level and, if Redis works, from the second |
| EventPattern.JoinSplit | swx_core/events/dispatcher.py:355-356 | joining undoes splitting, and segments have no dots |
| EventPattern.SplitJoin | swx_core/events/dispatcher.py:355-356 | splitting undoes joining of dot-free segments |
| EventPattern.MatchesExactly | swx_core/events/dispatcher.py:341-366 | the bare star matches every event, and any other pattern exactly the events got by replacing each whole-segment star with a dot-free string |
| Registrations.StableSortSorts | swx_core/events/dispatcher.py:145 | the sort is descending and keeps the order within each priority |
| Registrations.SortingIsUnique | swx_core/events/dispatcher.py:145 | there is only one such list |
| Registrations.SortOfSorted | swx_core/events/dispatcher.py:142-150 | sorting a sorted list with more appended gives what sorting everything gives |
| Registrations.SelectedOfSorted | swx_core/events/dispatcher.py:181-190 | selecting commutes with sorting |
| Registrations.RemoveFirstOfSorted | swx_core/events/dispatcher.py:399-406 | removing the first equal registration commutes with sorting |
| Registrations.SortOfChoice | swx_core/events/dispatcher.py:329-339 | choosing from sorted lists and sorting gives what choosing from the unsorted lists and sorting gives |
| Registrations.FirstOccurrencesCount | swx_core/events/dispatcher.py:333-337 | of equal wildcard registrations one is kept |
| EventBus.EventBus.Listen | swx_core/events/dispatcher.py:113-150 | the registration is appended to the history, and the lists stay what sorting the surviving registrations from scratch gives |
| EventBus.EventBus.Forget | swx_core/events/dispatcher.py:168-192 | the same for `forget`; the result says whether any registration went |
| EventBus.EventBus.GetListenersForEvent | swx_core/events/dispatcher.py:329-339 | the listeners of an event are the sorted exact matches, duplicates kept, with the matching wildcards, equal ones once; whatever was registered under a matching name or pattern, or the bare star, and not removed since, is among them |
| EventBus.FoundExactly | swx_core/events/dispatcher.py:329-339 | how often each registration is found: one for exactly the event as often as it is registered, a wildcard once if its pattern matches |
| EventBus.RegisteredIsFound | swx_core/events/dispatcher.py:329-339 | what was registered for an event, by its name or a matching pattern such as the bare star, and not removed since, is found |
| EventBus.StaysSurviving | swx_core/events/dispatcher.py:113-192 | what was registered and neither forgotten nor completed since is registered |
| EventBus.SurvivorWasRegistered | swx_core/events/dispatcher.py:113-192 | what is registered was registered at some time and not forgotten since |
| EventBus.EventBus.Dispatch | swx_core/events/dispatcher.py:221-298 | the listeners run are those up to the first that stops the event or brings it down, and exactly the completed once-registrations are removed; a dispatch that fails removes nothing and records what completed |
| EventBus.EventBus.RemoveCompleted | swx_core/events/dispatcher.py:290-292 | each completed registration is removed from the lists as from the history |
| EventBus.EventBus.ForgetRegistration | swx_core/events/dispatcher.py:399-406 | removing one registration keeps the lists sorted from scratch |
| EventBus.RunListeners | swx_core/events/dispatcher.py:253-288 | how far the loop gets, and what it collects for removal |
| EventBus.RunsUpTo | swx_core/events/dispatcher.py:253-288 | the listeners that run are those up to the first that stops the event or raises without a name |
| EventBus.DispatchRemovesExactly | swx_core/events/dispatcher.py:280-292 | each registration for once is removed as often as it ran without raising, and none if the dispatch fails |
| EventBus.CompletedOnceCount | swx_core/events/dispatcher.py:280-281 | equal registrations for once are collected once for each that ran without raising |
| EventBus.RemoveListener | swx_core/events/dispatcher.py:181-190 | removing the first equal registration for each one of the listener leaves exactly those of other listeners |
| EventBus.ForgottenBag | swx_core/events/dispatcher.py:181-190 | what `forget` keeps: everything but the listener's registrations for the event and all its wildcard registrations |
| EventBus.DispatchFailsExactly | swx_core/events/dispatcher.py:283-288 | a dispatch fails exactly if a failing listener without a name is reached |
| EventBus.CompletionsAreHistory | swx_core/events/dispatcher.py:253-292 | everything a dispatch removes was registered and meant for once |
| EventBus.FailureIsHistory | swx_core/events/dispatcher.py:280-288 | what completes in a dispatch that fails was registered, meant for once, and stays registered |
| EventBus.CompletesExactly | swx_core/events/dispatcher.py:280-281 | what a dispatch collects are the registrations for once among the listeners that ran and did not raise |
| EventBus.CompletionsAreConserved | swx_core/events/dispatcher.py:280-292 | over every run, completions, forgotten and surviving registrations are the registrations made and the completions in dispatches that failed |
| EventBus.CompletesAtMostOnceExactly | swx_core/events/dispatcher.py:280-292 | over every run, each registration for once completes at most once exactly if it never completes again after a dispatch in which it completed and which then reached a failing listener without a name |
| EventBus.OnceListenerRunsTwice | swx_core/events/dispatcher.py:283-292 | a failing listener without a name behind a listener for once: both dispatches fail and the listener for once completes in both |
| EventBus.CompletionsKeepLasting | swx_core/events/dispatcher.py:290-292 | all other registrations survive every dispatch, in order |
| Bridge.FromRedisIsNotPublished | swx_core/events/redis_bridge.py:336-338 | a dispatch with the marker publishes nothing, however the bus is wrapped |
| Bridge.RedisEventBridge.PatchDispatch | swx_core/events/redis_bridge.py:323-348 | wraps the bus unless it is wrapped already |
| Bridge.RedisEventBridge.UnpatchDispatch | swx_core/events/redis_bridge.py:350-353 | puts the original dispatch back |
| Bridge.RedisEventBridge.Start | swx_core/events/redis_bridge.py:214-237 | subscribes to the event channels and the custom patterns, once, and only with Redis |
| Bridge.RedisEventBridge.Stop | swx_core/events/redis_bridge.py:242-265 | ends all subscriptions |
| Bridge.StartListens | swx_core/events/redis_bridge.py:214-237 | a started bridge listens to the event channels and to exactly its custom patterns; starting again changes nothing |
| Bridge.RedisEventBridge.Subscribe | swx_core/events/redis_bridge.py:286-293 | the handler comes last for its pattern; a new pattern is subscribed at once if the bridge runs |
| Bridge.RedisEventBridge.Unsubscribe | swx_core/events/redis_bridge.py:302-309 | the handler goes from its pattern; with the last one the pattern and its subscription go |
| Bridge.UnsubscribeUndoesSubscribe | swx_core/events/redis_bridge.py:286-309 | removing a handler that was not there before undoes adding it, whether its pattern had others or not |
| Bridge.RedisEventBridge.MayBroadcast | swx_core/events/redis_bridge.py:170-177 | true exactly if no excluded prefix fits and the filter agrees |
| Bridge.RedisEventBridge.DispatchThrough | swx_core/events/redis_bridge.py:330-346 | local dispatch first, then what is published |
| Bridge.RedisEventBridge.HandleMessage | swx_core/events/redis_bridge.py:411-449 | handling a delivered message publishes nothing |
| Bridge.StepPublishesExactly | swx_core/events/redis_bridge.py:181-210 | a step of a run publishes one message if it is a qualifying dispatch by a caller, and nothing otherwise |
| Bridge.PublishedExactly | swx_core/events/redis_bridge.py:313-348 | over every run, what Redis took are the messages of the qualifying dispatches, one each, in order, however often the buses were patched |
| Bridge.BroadcastsExactly | swx_core/events/redis_bridge.py:313-348 | after any run, a caller's dispatch adds exactly its message if its worker has Redis, the bus was patched and not unpatched since, it returns, its keyword arguments are known and unmarked, no prefix excluded and not readmitted since fits, the last filter agrees, and Redis takes it; otherwise nothing |
| Bridge.PatchedWorkerBroadcasts | swx_core/events/redis_bridge.py:323-348 | with Redis, a dispatch after one patch is published, and one without it is not |
| Bridge.EveryMessageArrivesOnce | swx_core/events/redis_bridge.py:357-371 | while a worker stays subscribed it gets every message that Redis takes once, in order |
| Bridge.CopiesExactly | swx_core/events/redis_bridge.py:230-237 | a subscription gets a message exactly if it is the bridge's own or covers the event |
| Bridge.StepQueues | swx_core/events/redis_bridge.py:194-208 | what is published goes to the queues of all workers, once for each subscription that gets it |
| Bridge.DeliveriesAreBounded | swx_core/events/redis_bridge.py:230-237 | no worker gets more than one delivery per message and subscription |
| Bridge.WithoutDispatchesDrains | swx_core/events/redis_bridge.py:411-449 | once callers dispatch nothing, nothing is published whatever else happens, and every delivery takes one message off its queue; nothing but stopping takes any other |
| Bridge.DeliveryReachesExactly | swx_core/events/redis_bridge.py:430-449 | a delivery reaches the listeners, and then the handlers of its pattern, exactly if the event object takes the marker |
| Bridge.NoDeliveryReachesListeners | swx_core/events/redis_bridge.py:430-449 | over every run, with the fields the event object has, no delivery reaches any listener |
| Lifecycle.LifecycleManager.Register | swx_core/lifecycle.py:79-86 | appends a service, and refuses one without a name |
| Lifecycle.LifecycleManager.StartAll | swx_core/lifecycle.py:93-118 | starts all services in order, or up to the first failure, which is named after all that were started are stopped in reverse: with all starts returning, one successful start per service in order; with k the first failure, k starts, the failed one, and k stops in reverse |
| Lifecycle.LifecycleManager.StopAll | swx_core/lifecycle.py:120-139 | every started service gets one stop call in reverse order, whatever fails, and nothing counts as started |
| Lifecycle.AfterIsBracketed | swx_core/lifecycle.py:93-139 | every command closes what it opened, except that a start forgets what was started before |
| Lifecycle.RunIsBracketed | swx_core/lifecycle.py:93-139 | over every run, what is open is what earlier starts forgot and what is started now |
| Lifecycle.LeakedExactly | swx_core/lifecycle.py:99 | something is forgotten exactly if a start found services still started |
| Lifecycle.IdleRunIsClosedExactly | swx_core/lifecycle.py:93-139 | whenever nothing is started, every start is closed exactly if no start found services still started |
| Lifecycle.OpenPairs | swx_core/lifecycle.py:93-139 | in a bracketed trace every start is open or paired with a later stop of its own, nested in reverse order |
| Lifecycle.ClosedMeansEveryStartStopped | swx_core/lifecycle.py:93-139 | in a closed trace every successful start has exactly one stop call, in reverse order of the starts |
| Version.Numeral | swx_core/version.py:48-51 | the decimal numeral of a number, its value, and no leading zeros |
| Version.ParsesExactly | swx_core/version.py:104-117 | parsing yields a version exactly if the string begins with three dotted numerals, followed by a pre-release spelling and a numeral, or by anything else |
| Version.SpellingIsUnique | swx_core/version.py:105 | at most one of the six spellings is followed by a digit |
| Version.SpellingsParse | swx_core/version.py:104-117 | `a` and `alpha`, `b` and `beta`, `rc` and `candidate` name the three levels before a final release |
| Version.PreReleasesPrint | swx_core/version.py:47-51 | the three numbers with dots, followed for a pre-release by the name of its level and the serial |
| Version.ParseUndoesPrint | swx_core/version.py:47-51 | parsing undoes printing at all four levels, up to the serial of a final release |
| Version.PrintsAlikeExactly | swx_core/version.py:47-51 | two versions print alike exactly if they are the same up to the serial of a final release |
| Version.LessIsLexicographic | swx_core/version.py:145-152 | one version is less than another exactly if it is less at the first place where they differ |
| Version.OperatorsAgree | swx_core/version.py:141-152 | the order is total and transitive, and the six operators answer by it |
| Version.LevelsAscend | swx_core/version.py:113-117 | of one release alpha, beta, candidate and final come in this order, whatever the serials |
| Version.SplitsAtOperator | swx_core/version.py:136-144 | an operator in front of a version is split off whole |
| Version.ChecksAnswer | swx_core/version.py:120-157 | with each of the six operators the check is true exactly if the installed version is older, newer or neither, as decided at the first place where the two differ |
| Version.InstalledAnswers | swx_core/version.py:120-157 | what the installed version 2.26.2 answers to any operator and release |
| Version.InstalledExamples | swx_core/version.py:120-157 | it is at least 2.0.0, newer than 2.25.9 and older than 3.0.0 |
| Version.BareRequirementDiffersExactly | swx_core/version.py:124-126 | without an operator the check differs from the documented one exactly if the installed version is later and of the same major version |
| Version.CompatibleReleaseIsUnreachable | swx_core/version.py:136 | no requirement reaches the `~=` branch, and one written with `~=` is an error |

## Left out

- Threads and interleaved asynchronous scopes in the container: one thread of control is modelled.
- Constructor introspection, `**parameters`, callbacks and tags of the container: a class is the list of its parameters, a factory or extender the list of names it makes and whether it raises.
- Ioc.Container.Make: says nothing about trees under contextual bindings, since edges then depend on the stack; it covers their termination, the stack and the caches.
- ContainerRuns.Request: the stacks that a request can reach are those with nothing cached and nothing failing, so a redirect that a cached object or an earlier failure hides still counts.
- Ioc.Container.Run: needs a scoped cache that holds no name bound anew as something else meanwhile; `ContainerRuns.Perform` does not.
- Registration order of providers: it goes by priority, not by `depends`, so nothing is claimed about it.
- Where a client's address comes from beyond its being cut at commas and stripped, the parsing of rules from the environment, the JSON response, and scopes other than http.
- RateCounter.InMemoryCounter.CheckAndIncrement: needs a clock that does not run backwards.
- Letter case beyond ASCII in HTTP methods, and digits beyond ASCII in version strings.
- JSON, Redis itself, the prefix and bulk invalidations across levels, and the role cache, which repeats the profile protocol.
- AuthCacheCalls.CacheOfProcess.GetProfile: executes a call without interruption; calls that interleave are runs of `AuthCache`.
- AuthCache.ReturnedIsRecent: strips the password field from every kind of value, where the source strips it from profiles only.
- `dispatch_sync`, listeners that dispatch on the same bus while it dispatches, the record of fired events, and the job queue behind queueable listeners.
- EventBus.CompletesAtMostOnceExactly: speaks of a registration that is not made again while it is registered; equal registrations made at the same time are only counted together (`EventBus.CompletionsAreConserved`).
- Dispatches that are awaited concurrently: both can run the same listener for once before either removes it.
- EventBus.EventBus.Dispatch: needs no listener to register or forget listeners meanwhile.
- Reconnecting after a Redis error, and what handlers of custom patterns do.
- Bridge.StepPublishesExactly: a listener's own dispatches count as dispatches by a caller, and calls of `publish` that bypass dispatch are not among the steps.
- Cancellation while services start or stop, and logging and timing everywhere.
- Controllers, repositories, database models, the command line, header and tenant middleware, jobs, ledgers and quotas: thin layers, or code that would only add easy members.
