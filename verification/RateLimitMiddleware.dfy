/** The rule loop that guards the application with one sliding-window counter. */
module RateLimitMiddleware {
  import opened RateCounter
  import opened RateLedger
  import opened RateLimit

  /** What Unicode calls white space among the characters of a header. */
  predicate IsSpace(c: char) {
    9 <= c as int <= 13 || 28 <= c as int <= 32 || c as int == 133 || c as int == 160
  }

  /** A client's address: what a header says is decoded as Latin-1, cut at commas and stripped of white
      space, and the address of a connection has no other characters either. */
  predicate IsAddress(s: string) {
    && (forall i :: 0 <= i < |s| ==> s[i] as int < 256)
    && ',' !in s && (s != "" ==> !IsSpace(s[0]) && !IsSpace(s[|s| - 1]))
  }

  type Address = s: string | IsAddress(s) witness "unknown"

  datatype Request = Request(method_: string, path: string, ip: Address)

  datatype Rule = Rule(
    namespace: string,
    pathPrefix: string,
    exactPath: string,
    methods: seq<string>,
    limit: Limit)
  {
    /** An exact path, where given, hides the prefix; a rule with neither matches nothing. */
    predicate Matches(req: Request) {
      && (methods == [] || Upper(req.method_) in methods)
      && if exactPath != "" then req.path == exactPath else pathPrefix != "" && pathPrefix <= req.path
    }
  }

  datatype Response = PassedThrough | TooManyRequests(namespace: string, retryAfter: int, maxRequests: int) | ServerError

  /** A request that reached the application, with the clock reading of each rule's check. */
  datatype Pass = Pass(req: Request, times: seq<real>)

  function UpperChar(c: char): char {
    if 'a' <= c <= 'z' then (c as int - 32) as char else c
  }

  function Upper(s: string): string {
    seq(|s|, i requires 0 <= i < |s| => UpperChar(s[i]))
  }

  /** The letter case of the method does not matter, and with an exact path the prefix does not. */
  lemma MatchesRegardlessOfCase(rule: Rule, req: Request, prefix: string)
    ensures Upper(Upper(req.method_)) == Upper(req.method_)
    ensures rule.Matches(req) <==> rule.Matches(req.(method_ := Upper(req.method_)))
    ensures rule.exactPath != "" ==> (rule.Matches(req) <==> rule.(pathPrefix := prefix).Matches(req))
    ensures rule.Matches(req) ==>
              req.path == rule.exactPath || (rule.exactPath == "" && exists rest :: req.path == rule.pathPrefix + rest)
  {
    var up := Upper(req.method_);
    assert forall i :: 0 <= i < |up| ==> Upper(up)[i] == up[i];
    assert Upper(up) == up;
    if rule.Matches(req) && rule.exactPath == "" {
      assert req.path == rule.pathPrefix + req.path[|rule.pathPrefix|..];
    }
  }

  /** A rule applies exactly if it lists no methods or the request's method with its letters raised, and the
      path is its exact path or, if it has none, begins with its non-empty prefix. */
  lemma MatchesExactly(rule: Rule, req: Request)
    ensures rule.Matches(req) <==>
              && (rule.methods == [] || exists m :: m in rule.methods && IsRaised(req.method_, m))
              && ((rule.exactPath != "" && req.path == rule.exactPath)
                  || (rule.exactPath == "" && rule.pathPrefix != "" && exists rest :: req.path == rule.pathPrefix + rest))
  {
    RaisedIsUpper(req.method_);
    if rule.exactPath == "" && rule.pathPrefix <= req.path {
      assert req.path == rule.pathPrefix + req.path[|rule.pathPrefix|..];
    }
    if rest :| req.path == rule.pathPrefix + rest {
      assert rule.pathPrefix <= req.path;
    }
  }

  /** up is s with its letters a to z raised. */
  ghost predicate IsRaised(s: string, up: string) {
    && |up| == |s|
    && forall i :: 0 <= i < |s| ==>
         if 97 <= s[i] as int <= 122 then up[i] as int == s[i] as int - 32 else up[i] == s[i]
  }

  lemma RaisedIsUpper(s: string)
    ensures forall up :: IsRaised(s, up) <==> up == Upper(s)
  {
    assert IsRaised(s, Upper(s));
    forall up | IsRaised(s, up)
      ensures up == Upper(s)
    {
      assert forall i :: 0 <= i < |s| ==> up[i] == Upper(s)[i];
    }
  }

  /** For example, only POST requests to this path. */
  lemma LoginRuleMatches(ip: Address)
    ensures LOGIN.Matches(Request("POST", "/api/auth/login", ip)) && LOGIN.Matches(Request("post", "/api/auth/login/x", ip))
    ensures !LOGIN.Matches(Request("GET", "/api/auth/login", ip)) && !LOGIN.Matches(Request("POST", "/api/auth", ip))
  {
    assert Upper("POST") == "POST" && Upper("post") == "POST" && Upper("GET") == "GET";
    assert "/api/auth/login/x"[..15] == "/api/auth/login";
  }

  const LOGIN := Rule("auth:login", "/api/auth/login", "", ["POST"], Limit(5, 60))

  // ---- Keys ---------------------------------------------------------------

  function KeyOf(namespace: string, ip: string): Key {
    "rl:" + namespace + ":" + ip
  }

  /** b continues a by a colon and what may begin an address. */
  predicate IsExtension(a: string, b: string) {
    a + ":" <= b && IsAddress(b[|a| + 1..] + ":")
  }

  predicate Collide(a: string, b: string) {
    a == b || IsExtension(a, b) || IsExtension(b, a)
  }

  /** Two namespaces share a counter key for some pair of addresses exactly when they are the same or
      one extends the other; being distinct is not enough. */
  lemma KeysCollideExactly(a: string, b: string)
    ensures (exists ip: Address, jp: Address :: KeyOf(a, ip) == KeyOf(b, jp)) <==> Collide(a, b)
  {
    if ip: Address, jp: Address :| KeyOf(a, ip) == KeyOf(b, jp) {
      SameKeyMeansCollide(a, b, ip, jp);
    }
    if IsExtension(a, b) {
      ExtensionCollides(a, b);
    } else if IsExtension(b, a) {
      ExtensionCollides(b, a);
    } else if a == b {
      assert KeyOf(a, "unknown") == KeyOf(b, "unknown");
    }
  }

  lemma SameKeyMeansCollide(a: string, b: string, ip: Address, jp: Address)
    requires KeyOf(a, ip) == KeyOf(b, jp)
    ensures Collide(a, b) && (a == b ==> ip == jp)
  {
    KeyParts(a, ip);
    KeyParts(b, jp);
    if |a| < |b| {
      LongerExtends(a, b, ip, jp);
    } else if |b| < |a| {
      LongerExtends(b, a, jp, ip);
    } else {
      assert a == (a + ":" + ip)[..|a|] && b == (b + ":" + jp)[..|a|];
      assert ip == (a + ":" + ip)[|a| + 1..] && jp == (b + ":" + jp)[|a| + 1..];
    }
  }

  lemma LongerExtends(a: string, b: string, ip: Address, jp: string)
    requires |a| < |b| && a + ":" + ip == b + ":" + jp
    ensures IsExtension(a, b)
  {
    var key, rest := a + ":" + ip, b[|a| + 1..] + ":";
    assert a + ":" == key[..|a| + 1] && b == key[..|b|];
    assert ip == key[|a| + 1..] && rest + jp == (b + ":" + jp)[|a| + 1..];
    assert ip == rest + jp;
    assert rest[0] == ip[0] && rest[|rest| - 1] == ':';
    assert forall i :: 0 <= i < |rest| ==> rest[i] == ip[i];
  }

  lemma ExtensionCollides(a: string, b: string)
    requires IsExtension(a, b)
    ensures exists ip: Address, jp: Address :: KeyOf(a, ip) == KeyOf(b, jp)
  {
    var ip: Address, jp: Address := b[|a| + 1..] + ":", "";
    assert a + ":" + ip == b + ":";
    KeyParts(a, ip);
    KeyParts(b, jp);
    assert KeyOf(a, ip) == KeyOf(b, jp);
  }

  lemma KeyParts(a: string, ip: string)
    ensures KeyOf(a, ip)[3..] == a + ":" + ip && KeyOf(a, ip) == "rl:" + (a + ":" + ip)
  {
  }

  /** Some rule that may share the key of rule i can make it forget what rule i's bound needs. */
  ghost predicate IsUndercut(rules: seq<Rule>, i: nat)
    requires i < |rules|
  {
    exists j: nat :: j < |rules| && Collide(rules[j].namespace, rules[i].namespace) && Undercuts(rules[j].limit, rules[i].limit)
  }

  /** Some rule that may share the key of rule i has a shorter window. */
  ghost predicate IsShortened(rules: seq<Rule>, i: nat)
    requires i < |rules|
  {
    exists j: nat :: j < |rules| && Collide(rules[j].namespace, rules[i].namespace)
                     && rules[j].limit.windowSeconds < rules[i].limit.windowSeconds
  }

  // ---- What the counter keeps for the rules -------------------------------

  type Ledgers = map<Key, Ledger>

  /** Rule i keeps its bound: evictions cannot hurt it, and no other rule undercuts it. */
  ghost predicate IsBounded(rules: seq<Rule>, i: nat, evicted: bool)
    requires i < |rules|
  {
    IsCovered(rules[i].limit, evicted) && !IsUndercut(rules, i)
  }

  /** Checks of rule i see the whole history of its window. */
  ghost predicate IsExact(rules: seq<Rule>, i: nat, evicted: bool)
    requires i < |rules|
  {
    IsCovered(rules[i].limit, evicted) && !IsShortened(rules, i)
  }

  ghost predicate KeepsRule(rules: seq<Rule>, i: nat, ip: Address, ledgers: Ledgers, clock: real, evicted: bool)
    requires i < |rules|
  {
    var l := LedgerAt(ledgers, KeyOf(rules[i].namespace, ip));
    && (IsBounded(rules, i, evicted) ==> Guards(l, clock, rules[i].limit))
    && (IsExact(rules, i, evicted) ==> Remembers(l, clock, rules[i].limit.windowSeconds))
  }

  ghost predicate KeepsRules(rules: seq<Rule>, ledgers: Ledgers, clock: real, evicted: bool) {
    forall i: nat, ip: Address :: i < |rules| ==> KeepsRule(rules, i, ip, ledgers, clock, evicted)
  }

  /** One key through a check of a rule. */
  lemma CheckKeepsRule(rules: seq<Rule>, i: nat, ip: Address, l: Ledger, clock: real, evicted: bool, crowded: bool,
      n: nat, jp: Address, now: real)
    requires i < |rules| && n < |rules| && IsLedger(l, clock) && clock <= now
    requires IsBounded(rules, i, evicted) ==> Guards(l, clock, rules[i].limit)
    requires IsExact(rules, i, evicted) ==> Remembers(l, clock, rules[i].limit.windowSeconds)
    ensures var mine := KeyOf(rules[i].namespace, ip) == KeyOf(rules[n].namespace, jp);
      var m := Passed(l, crowded, mine, rules[n].limit, now);
      && (IsBounded(rules, i, evicted || crowded) ==> Guards(m, now, rules[i].limit))
      && (IsExact(rules, i, evicted || crowded) ==> Remembers(m, now, rules[i].limit.windowSeconds))
  {
    var mine, r := KeyOf(rules[i].namespace, ip) == KeyOf(rules[n].namespace, jp), rules[i].limit;
    if mine {
      SameKeyMeansCollide(rules[n].namespace, rules[i].namespace, jp, ip);
    }
    hide KeyOf, Collide, Checked, EvictedLedger, Guards, Remembers, Undercuts;
    if IsBounded(rules, i, evicted || crowded) {
      PassedGuards(l, clock, crowded, mine, rules[n].limit, now, r);
    }
    if IsExact(rules, i, evicted || crowded) {
      PassedRemembers(l, clock, crowded, mine, rules[n].limit, now, r.windowSeconds);
    }
  }

  lemma PassedGuards(l: Ledger, clock: real, crowded: bool, mine: bool, c: Limit, now: real, r: Limit)
    requires Guards(l, clock, r) && clock <= now && (crowded ==> r.windowSeconds <= 3600) && (mine ==> !Undercuts(c, r))
    ensures Guards(Passed(l, crowded, mine, c, now), now, r)
  {
    var rest := if crowded then EvictedLedger(l, now) else l;
    if crowded {
      EvictedStaysGuarded(l, clock, now, r);
    } else {
      LaterGuards(l, clock, now, r);
    }
    if mine {
      CheckedStaysGuarded(rest, now, c, now, r);
    }
    hide Checked, EvictedLedger, Own, HasMemory;
  }

  lemma PassedRemembers(l: Ledger, clock: real, crowded: bool, mine: bool, c: Limit, now: real, window: int)
    requires IsLedger(l, clock) && Remembers(l, clock, window) && clock <= now
    requires (crowded ==> window <= 3600) && (mine ==> window <= c.windowSeconds)
    ensures Remembers(Passed(l, crowded, mine, c, now), now, window)
  {
    var rest := if crowded then EvictedLedger(l, now) else l;
    if crowded {
      EvictedRemembers(l, clock, now, window);
      EvictedLists(l, clock, now);
    }
    if mine {
      CheckedRemembers(rest, if crowded then now else clock, c, now, window);
    }
    hide Checked, EvictedLedger, Listed, Kept;
  }

  // ---- What one request records ------------------------------------------

  /** The stamps that the checks of the first n rules add to key k. */
  ghost function Stamps(rules: seq<Rule>, req: Request, times: seq<real>, n: nat, k: Key): seq<Stamp>
    requires n <= |rules| == |times|
  {
    if n == 0 then []
    else
      Stamps(rules, req, times, n - 1, k) +
      if rules[n - 1].Matches(req) && KeyOf(rules[n - 1].namespace, req.ip) == k then [Stamp(times[n - 1], rules[n - 1].limit)] else []
  }

  lemma {:induction false} OwnConcat(a: seq<Stamp>, b: seq<Stamp>, c: Limit)
    ensures Own(a + b, c) == Own(a, c) + Own(b, c)
  {
    if b == [] {
      assert a + b == a;
    } else {
      var init, last := b[..|b| - 1], b[|b| - 1];
      OwnConcat(a, init, c);
      OwnAppend(a + init, last, c);
      assert a + b == a + init + [last];
    }
  }

  lemma {:induction false} StampIsCounted(rules: seq<Rule>, req: Request, times: seq<real>, n: nat, i: nat, lo: real, hi: real)
    requires i < n <= |rules| == |times| && rules[i].Matches(req) && lo <= times[i] < hi
    ensures CountIn(Own(Stamps(rules, req, times, n, KeyOf(rules[i].namespace, req.ip)), rules[i].limit), lo, hi) >= 1
  {
    var k, c := KeyOf(rules[i].namespace, req.ip), rules[i].limit;
    var earlier := Stamps(rules, req, times, n - 1, k);
    var last := if rules[n - 1].Matches(req) && KeyOf(rules[n - 1].namespace, req.ip) == k
      then [Stamp(times[n - 1], rules[n - 1].limit)] else [];
    if i < n - 1 {
      StampIsCounted(rules, req, times, n - 1, i, lo, hi);
    } else {
      OneIsCounted(last[0], lo, hi);
    }
    assert Stamps(rules, req, times, n, k) == earlier + last;
    hide Own, CountIn, KeyOf, Stamps;
    CountConcat(earlier, last, c, lo, hi);
  }

  lemma OneIsCounted(s: Stamp, lo: real, hi: real)
    requires lo <= s.time < hi
    ensures CountIn(Own([s], s.limit), lo, hi) == 1
  {
    OwnAppend([], s, s.limit);
    assert [] + [s] == [s];
    CountNext([], s.time, lo, hi);
  }

  /** The first n rules' checks added exactly their stamps to the histories. */
  ghost predicate IsStamped(rules: seq<Rule>, before: Ledgers, after: Ledgers, req: Request, times: seq<real>, n: nat)
    requires n <= |rules| == |times|
  {
    forall k {:trigger LedgerAt(after, k)} ::
      LedgerAt(after, k).history == LedgerAt(before, k).history + Stamps(rules, req, times, n, k)
  }

  // ---- The verdict ---------------------------------------------------------

  /** What a limiter that remembers everything decides for rule i, after the rules before it. */
  ghost function RuleDecision(rules: seq<Rule>, before: Ledgers, req: Request, times: seq<real>, i: nat): Decision
    requires i < |rules| == |times|
  {
    var k := KeyOf(rules[i].namespace, req.ip);
    if rules[i].Matches(req)
    then Ideal(Times(LedgerAt(before, k).history + Stamps(rules, req, times, i, k)), times[i], rules[i].limit)
    else Allowed
  }

  ghost predicate AllowedUpTo(rules: seq<Rule>, before: Ledgers, req: Request, times: seq<real>, n: nat)
    requires n <= |rules| == |times|
  {
    forall j: nat :: j < n ==> RuleDecision(rules, before, req, times, j).Allowed?
  }

  /** The request passes when every matching rule allows it; otherwise the first rule that does not
      is reported. */
  ghost predicate IsVerdict(rules: seq<Rule>, before: Ledgers, req: Request, times: seq<real>, r: Response)
    requires |rules| == |times|
  {
    match r
    case PassedThrough => AllowedUpTo(rules, before, req, times, |rules|)
    case TooManyRequests(namespace, retryAfter, maxRequests) =>
      exists i ::
        && 0 <= i < |rules| && AllowedUpTo(rules, before, req, times, i)
        && RuleDecision(rules, before, req, times, i) == Denied(retryAfter)
        && namespace == rules[i].namespace && maxRequests == rules[i].limit.maxRequests
    case ServerError =>
      exists i ::
        && 0 <= i < |rules| && AllowedUpTo(rules, before, req, times, i)
        && RuleDecision(rules, before, req, times, i) == IndexError
  }

  function ResponseOf(rules: seq<Rule>, n: nat, decision: Decision): Response {
    if n >= |rules| then PassedThrough
    else if decision.Denied? then TooManyRequests(rules[n].namespace, decision.retryAfter, rules[n].limit.maxRequests)
    else ServerError
  }

  lemma IsVerdictOf(rules: seq<Rule>, before: Ledgers, req: Request, times: seq<real>, n: nat, decision: Decision)
    requires n <= |rules| == |times| && AllowedUpTo(rules, before, req, times, n)
    requires n < |rules| ==> !decision.Allowed? && decision == RuleDecision(rules, before, req, times, n)
    ensures IsVerdict(rules, before, req, times, ResponseOf(rules, n, decision))
  {
    hide RuleDecision;
  }

  // ---- Counting what reached the application ---------------------------------

  /** How many requests from ip that match rule i reached the application with a check of that rule
      at a time in [lo, hi). */
  ghost function CountPasses(passes: seq<Pass>, rules: seq<Rule>, i: nat, ip: Address, lo: real, hi: real): nat
    requires i < |rules| && forall p :: p in passes ==> |p.times| == |rules|
  {
    if passes == [] then 0
    else
      var last := passes[|passes| - 1];
      CountPasses(passes[..|passes| - 1], rules, i, ip, lo, hi) +
      if last.req.ip == ip && rules[i].Matches(last.req) && lo <= last.times[i] < hi then 1 else 0
  }

  ghost predicate IsInside(p: Pass, rule: Rule, i: nat, ip: Address, lo: real, hi: real)
    requires i < |p.times|
  {
    p.req.ip == ip && rule.Matches(p.req) && lo <= p.times[i] < hi
  }

  ghost function Inside(passes: seq<Pass>, rules: seq<Rule>, i: nat, ip: Address, lo: real, hi: real): set<nat>
    requires i < |rules| && forall p :: p in passes ==> |p.times| == |rules|
  {
    set n: nat | n < |passes| && IsInside(passes[n], rules[i], i, ip, lo, hi)
  }

  lemma InsideNext(passes: seq<Pass>, last: Pass, rules: seq<Rule>, i: nat, ip: Address, lo: real, hi: real)
    requires i < |rules| == |last.times| && forall p :: p in passes ==> |p.times| == |rules|
    ensures Inside(passes + [last], rules, i, ip, lo, hi) ==
            Inside(passes, rules, i, ip, lo, hi) + if IsInside(last, rules[i], i, ip, lo, hi) then {|passes|} else {}
  {
    hide IsInside;
  }

  lemma {:induction false} CountPassesExactly(passes: seq<Pass>, rules: seq<Rule>, i: nat, ip: Address, lo: real, hi: real)
    requires i < |rules| && forall p :: p in passes ==> |p.times| == |rules|
    ensures CountPasses(passes, rules, i, ip, lo, hi) == |Inside(passes, rules, i, ip, lo, hi)|
  {
    if passes != [] {
      var init, last := passes[..|passes| - 1], passes[|passes| - 1];
      CountPassesExactly(init, rules, i, ip, lo, hi);
      assert passes == init + [last];
      InsideNext(init, last, rules, i, ip, lo, hi);
      assert |init| !in Inside(init, rules, i, ip, lo, hi);
      hide Inside, Rule.Matches;
    }
  }

  ghost predicate IsAccountedAt(rules: seq<Rule>, ledgers: Ledgers, passes: seq<Pass>, i: nat, ip: Address, lo: real, hi: real)
    requires i < |rules| && forall p :: p in passes ==> |p.times| == |rules|
  {
    CountPasses(passes, rules, i, ip, lo, hi)
    <= CountIn(Own(LedgerAt(ledgers, KeyOf(rules[i].namespace, ip)).history, rules[i].limit), lo, hi)
  }

  ghost predicate IsAccounted(rules: seq<Rule>, ledgers: Ledgers, passes: seq<Pass>) {
    && (forall p :: p in passes ==> |p.times| == |rules|)
    && forall i: nat, ip: Address, lo, hi :: i < |rules| ==> IsAccountedAt(rules, ledgers, passes, i, ip, lo, hi)
  }

  lemma StampedStaysAccounted(rules: seq<Rule>, before: Ledgers, after: Ledgers, passes: seq<Pass>, req: Request,
      times: seq<real>, n: nat)
    requires n <= |rules| == |times| && IsAccounted(rules, before, passes) && IsStamped(rules, before, after, req, times, n)
    ensures IsAccounted(rules, after, passes)
    ensures n == |rules| ==> IsAccounted(rules, after, passes + [Pass(req, times)])
  {
    var more := passes + [Pass(req, times)];
    forall i: nat, ip: Address, lo, hi | i < |rules|
      ensures IsAccountedAt(rules, after, passes, i, ip, lo, hi)
      ensures n == |rules| ==> IsAccountedAt(rules, after, more, i, ip, lo, hi)
    {
      assert IsAccountedAt(rules, before, passes, i, ip, lo, hi);
      assert LedgerAt(after, KeyOf(rules[i].namespace, ip)) == LedgerAt(after, KeyOf(rules[i].namespace, ip));
      StampedCount(rules, before, after, passes, req, times, n, i, ip, lo, hi);
    }
  }

  lemma CountConcat(a: seq<Stamp>, b: seq<Stamp>, c: Limit, lo: real, hi: real)
    ensures CountIn(Own(a + b, c), lo, hi) == CountIn(Own(a, c), lo, hi) + CountIn(Own(b, c), lo, hi)
  {
    hide Own, CountIn;
    OwnConcat(a, b, c);
    CountAppend(Own(a, c), Own(b, c), lo, hi);
  }

  lemma StampedCount(rules: seq<Rule>, before: Ledgers, after: Ledgers, passes: seq<Pass>, req: Request, times: seq<real>,
      n: nat, i: nat, ip: Address, lo: real, hi: real)
    requires i < |rules| == |times| && n <= |rules| && forall p :: p in passes ==> |p.times| == |rules|
    requires var k := KeyOf(rules[i].namespace, ip);
      && IsAccountedAt(rules, before, passes, i, ip, lo, hi)
      && LedgerAt(after, k).history == LedgerAt(before, k).history + Stamps(rules, req, times, n, k)
    ensures IsAccountedAt(rules, after, passes, i, ip, lo, hi)
    ensures n == |rules| ==> IsAccountedAt(rules, after, passes + [Pass(req, times)], i, ip, lo, hi)
  {
    var k, c, more := KeyOf(rules[i].namespace, ip), rules[i].limit, passes + [Pass(req, times)];
    assert more[..|more| - 1] == passes;
    hide Own, CountIn, Stamps, KeyOf, LedgerAt;
    CountConcat(LedgerAt(before, k).history, Stamps(rules, req, times, n, k), c, lo, hi);
    if n == |rules| && req.ip == ip && rules[i].Matches(req) && lo <= times[i] < hi {
      StampIsCounted(rules, req, times, n, i, lo, hi);
    }
  }

  /** The check of the next rule adds its stamp, if it allows the request. */
  lemma StampedNext(rules: seq<Rule>, before: Ledgers, earlier: Ledgers, after: Ledgers, req: Request, times: seq<real>,
      n: nat, allowed: bool)
    requires n < |rules| == |times| && rules[n].Matches(req) && IsStamped(rules, before, earlier, req, times, n)
    requires var key := KeyOf(rules[n].namespace, req.ip);
      forall k {:trigger LedgerAt(after, k)} ::
        LedgerAt(after, k).history == LedgerAt(earlier, k).history +
          if k == key && allowed then [Stamp(times[n], rules[n].limit)] else []
    ensures IsStamped(rules, before, after, req, times, if allowed then n + 1 else n)
  {
    forall k
      ensures LedgerAt(after, k).history == LedgerAt(before, k).history + Stamps(rules, req, times, if allowed then n + 1 else n, k)
    {
      assert LedgerAt(earlier, k).history == LedgerAt(before, k).history + Stamps(rules, req, times, n, k);
      StampedNextAt(rules, before, earlier, after, req, times, n, allowed, k);
    }
  }

  lemma StampedNextAt(rules: seq<Rule>, before: Ledgers, earlier: Ledgers, after: Ledgers, req: Request, times: seq<real>,
      n: nat, allowed: bool, k: Key)
    requires n < |rules| == |times| && rules[n].Matches(req)
    requires LedgerAt(earlier, k).history == LedgerAt(before, k).history + Stamps(rules, req, times, n, k)
    requires LedgerAt(after, k).history == LedgerAt(earlier, k).history +
               if k == KeyOf(rules[n].namespace, req.ip) && allowed then [Stamp(times[n], rules[n].limit)] else []
    ensures LedgerAt(after, k).history == LedgerAt(before, k).history + Stamps(rules, req, times, if allowed then n + 1 else n, k)
  {
    var stamp := if k == KeyOf(rules[n].namespace, req.ip) && allowed then [Stamp(times[n], rules[n].limit)] else [];
    var x, y := LedgerAt(before, k).history, Stamps(rules, req, times, n, k);
    assert allowed ==> Stamps(rules, req, times, n + 1, k) == y + stamp;
    hide KeyOf, LedgerAt, Stamps;
    assert (x + y) + stamp == x + (y + stamp);
    assert y + [] == y;
  }

  lemma StampedSkip(rules: seq<Rule>, before: Ledgers, after: Ledgers, req: Request, times: seq<real>, n: nat)
    requires n < |rules| == |times| && !rules[n].Matches(req) && IsStamped(rules, before, after, req, times, n)
    ensures IsStamped(rules, before, after, req, times, n + 1)
  {
    hide KeyOf;
    forall k
      ensures LedgerAt(after, k).history == LedgerAt(before, k).history + Stamps(rules, req, times, n + 1, k)
    {
      assert Stamps(rules, req, times, n + 1, k) == Stamps(rules, req, times, n, k);
    }
  }

  // ---- The middleware ----------------------------------------------------------

  /** A check that remembers its window decides as the whole history does. */
  lemma ExactDecision(l: Ledger, clock: real, crowded: bool, c: Limit, now: real)
    requires IsLedger(l, clock) && Remembers(l, clock, c.windowSeconds) && clock <= now && (crowded ==> c.windowSeconds <= 3600)
    ensures Verdict(Passed(l, crowded, false, c, now), c, now) == Ideal(Times(l.history), now, c)
  {
    var rest := Passed(l, crowded, false, c, now);
    PassedRemembers(l, clock, crowded, false, c, now, c.windowSeconds);
    if crowded {
      EvictedLists(l, clock, now);
    }
    assert IsLedger(rest, now);
    hide EvictedLedger, Kept, Decide;
    ForgettingIsVisibleExactly(rest, now, c.windowSeconds);
  }

  /** What one check of rule n adds to the histories. */
  lemma CheckStamps(rules: seq<Rule>, before: Ledgers, earlier: Ledgers, after: Ledgers, clock: real, req: Request,
      times: seq<real>, n: nat, crowded: bool, r: Decision)
    requires n < |rules| == |times| && rules[n].Matches(req) && IsStamped(rules, before, earlier, req, times, n)
    requires AreLedgers(earlier, clock)
    requires IsCheck(earlier, after, crowded, KeyOf(rules[n].namespace, req.ip), rules[n].limit, times[n], r)
    ensures IsStamped(rules, before, after, req, times, if r.Allowed? then n + 1 else n)
  {
    var key := KeyOf(rules[n].namespace, req.ip);
    forall k
      ensures LedgerAt(after, k).history == LedgerAt(earlier, k).history +
                if k == key && r.Allowed? then [Stamp(times[n], rules[n].limit)] else []
    {
      assert LedgerAt(after, k) == Passed(LedgerAt(earlier, k), crowded, k == key, rules[n].limit, times[n]);
      assert IsLedger(LedgerAt(earlier, k), clock);
      PassedHistory(LedgerAt(earlier, k), crowded, k == key, rules[n].limit, times[n]);
    }
    hide Passed, Verdict, IsLedger, IsCheck, AreLedgers;
    StampedNext(rules, before, earlier, after, req, times, n, r.Allowed?);
  }

  lemma PassedHistory(l: Ledger, crowded: bool, mine: bool, c: Limit, now: real)
    requires l.forgotten <= |l.history|
    ensures Passed(l, crowded, mine, c, now).history == l.history +
              if mine && Verdict(Passed(l, crowded, false, c, now), c, now).Allowed? then [Stamp(now, c)] else []
  {
    hide Verdict, Listed, Recent;
    assert l.history + [] == l.history;
  }

  ghost predicate AreLedgers(ledgers: Ledgers, clock: real) {
    forall k {:trigger LedgerAt(ledgers, k)} :: IsLedger(LedgerAt(ledgers, k), clock)
  }

  lemma CheckKeepsRules(rules: seq<Rule>, earlier: Ledgers, after: Ledgers, clock: real, evicted: bool, crowded: bool,
      n: nat, jp: Address, now: real, r: Decision)
    requires n < |rules| && clock <= now && KeepsRules(rules, earlier, clock, evicted) && AreLedgers(earlier, clock)
    requires IsCheck(earlier, after, crowded, KeyOf(rules[n].namespace, jp), rules[n].limit, now, r)
    ensures KeepsRules(rules, after, now, evicted || crowded)
  {
    var later := evicted || crowded;
    forall i: nat, ip: Address | i < |rules|
      ensures KeepsRule(rules, i, ip, after, now, later)
    {
      var k := KeyOf(rules[i].namespace, ip);
      assert KeepsRule(rules, i, ip, earlier, clock, evicted);
      assert LedgerAt(after, k) == Passed(LedgerAt(earlier, k), crowded, k == KeyOf(rules[n].namespace, jp), rules[n].limit, now);
      assert IsLedger(LedgerAt(earlier, k), clock);
      hide Passed, Guards, Remembers, KeyOf;
      CheckKeepsRule(rules, i, ip, LedgerAt(earlier, k), clock, evicted, crowded, n, jp, now);
    }
  }

  lemma CheckDecides(rules: seq<Rule>, before: Ledgers, earlier: Ledgers, after: Ledgers, clock: real, evicted: bool,
      crowded: bool, req: Request, times: seq<real>, n: nat, r: Decision)
    requires n < |rules| == |times| && rules[n].Matches(req) && clock <= times[n] && IsExact(rules, n, evicted || crowded)
    requires KeepsRules(rules, earlier, clock, evicted) && AreLedgers(earlier, clock)
    requires IsStamped(rules, before, earlier, req, times, n)
    requires IsCheck(earlier, after, crowded, KeyOf(rules[n].namespace, req.ip), rules[n].limit, times[n], r)
    ensures r == RuleDecision(rules, before, req, times, n)
  {
    var key := KeyOf(rules[n].namespace, req.ip);
    assert KeepsRule(rules, n, req.ip, earlier, clock, evicted);
    assert LedgerAt(earlier, key).history == LedgerAt(before, key).history + Stamps(rules, req, times, n, key);
    assert IsLedger(LedgerAt(earlier, key), clock);
    hide Passed, Verdict, Ideal, Times, KeyOf, Stamps, Remembers;
    ExactDecision(LedgerAt(earlier, key), clock, crowded, rules[n].limit, times[n]);
  }

  /** The state between two rules: each key's ledger fits its list, every rule is kept, and the first n
      rules have left their stamps. */
  ghost predicate IsBetween(rules: seq<Rule>, before: Ledgers, ledgers: Ledgers, clock: real, evicted: bool, req: Request,
      times: seq<real>, n: nat)
    requires n <= |rules| == |times|
  {
    && AreLedgers(ledgers, clock) && KeepsRules(rules, ledgers, clock, evicted)
    && IsStamped(rules, before, ledgers, req, times, n)
  }

  ghost predicate AreExact(rules: seq<Rule>, evicted: bool) {
    forall i :: 0 <= i < |rules| ==> IsExact(rules, i, evicted)
  }

  /** The first n rules allowed the request; rules that see their whole windows decided exactly. */
  ghost predicate Proceeds(rules: seq<Rule>, before: Ledgers, ledgers: Ledgers, clock: real, evicted: bool, req: Request,
      times: seq<real>, n: nat)
  {
    && n <= |rules| == |times| && Sorted(times) && (n < |rules| ==> clock <= times[n])
    && IsBetween(rules, before, ledgers, clock, evicted, req, times, n)
    && (AreExact(rules, evicted) ==> AllowedUpTo(rules, before, req, times, n))
  }

  /** The first n rules allowed the request, and rule n did not. */
  ghost predicate Stops(rules: seq<Rule>, before: Ledgers, ledgers: Ledgers, clock: real, evicted: bool, req: Request,
      times: seq<real>, n: nat, r: Decision)
  {
    && n < |rules| == |times| && !r.Allowed?
    && IsBetween(rules, before, ledgers, clock, evicted, req, times, n)
    && (AreExact(rules, evicted) ==> AllowedUpTo(rules, before, req, times, n) && r == RuleDecision(rules, before, req, times, n))
  }

  lemma BetweenChecked(rules: seq<Rule>, before: Ledgers, earlier: Ledgers, after: Ledgers, clock: real, evicted: bool,
      crowded: bool, req: Request, times: seq<real>, n: nat, r: Decision)
    requires n < |rules| == |times| && rules[n].Matches(req) && clock <= times[n]
    requires IsBetween(rules, before, earlier, clock, evicted, req, times, n) && AreLedgers(after, times[n])
    requires IsCheck(earlier, after, crowded, KeyOf(rules[n].namespace, req.ip), rules[n].limit, times[n], r)
    ensures IsBetween(rules, before, after, times[n], evicted || crowded, req, times, if r.Allowed? then n + 1 else n)
    ensures IsExact(rules, n, evicted || crowded) ==> r == RuleDecision(rules, before, req, times, n)
  {
    hide IsCheck, AreLedgers, KeepsRules, IsStamped, IsExact, RuleDecision;
    CheckKeepsRules(rules, earlier, after, clock, evicted, crowded, n, req.ip, times[n], r);
    CheckStamps(rules, before, earlier, after, clock, req, times, n, crowded, r);
    if IsExact(rules, n, evicted || crowded) {
      CheckDecides(rules, before, earlier, after, clock, evicted, crowded, req, times, n, r);
    }
  }

  /** Evictions only ever take exactness away. */
  lemma StaysExact(rules: seq<Rule>, evicted: bool, later: bool, i: nat)
    requires evicted ==> later
    ensures AreExact(rules, later) ==> AreExact(rules, evicted) && (i < |rules| ==> IsExact(rules, i, later))
  {
    if AreExact(rules, later) {
      forall j | 0 <= j < |rules|
        ensures IsExact(rules, j, evicted)
      {
        assert IsExact(rules, j, later);
      }
    }
  }

  lemma AllowedNext(rules: seq<Rule>, before: Ledgers, req: Request, times: seq<real>, n: nat)
    requires n < |rules| == |times| && AllowedUpTo(rules, before, req, times, n)
    requires RuleDecision(rules, before, req, times, n).Allowed?
    ensures AllowedUpTo(rules, before, req, times, n + 1)
  {
  }

  lemma RuleChecked(rules: seq<Rule>, before: Ledgers, earlier: Ledgers, after: Ledgers, clock: real, evicted: bool,
      crowded: bool, req: Request, times: seq<real>, n: nat, r: Decision)
    requires n < |rules| && Proceeds(rules, before, earlier, clock, evicted, req, times, n) && rules[n].Matches(req)
    requires AreLedgers(after, times[n])
    requires IsCheck(earlier, after, crowded, KeyOf(rules[n].namespace, req.ip), rules[n].limit, times[n], r)
    ensures if r.Allowed? then Proceeds(rules, before, after, times[n], evicted || crowded, req, times, n + 1)
            else Stops(rules, before, after, times[n], evicted || crowded, req, times, n, r)
  {
    hide IsCheck, AreLedgers, IsBetween, IsExact, AreExact, RuleDecision, AllowedUpTo;
    BetweenChecked(rules, before, earlier, after, clock, evicted, crowded, req, times, n, r);
    StaysExact(rules, evicted, evicted || crowded, n);
    if AreExact(rules, evicted || crowded) && r.Allowed? {
      AllowedNext(rules, before, req, times, n);
    }
  }

  lemma RuleSkipped(rules: seq<Rule>, before: Ledgers, ledgers: Ledgers, clock: real, evicted: bool, req: Request,
      times: seq<real>, n: nat)
    requires n < |rules| && Proceeds(rules, before, ledgers, clock, evicted, req, times, n) && !rules[n].Matches(req)
    ensures Proceeds(rules, before, ledgers, clock, evicted, req, times, n + 1)
  {
    StampedSkip(rules, before, ledgers, req, times, n);
    assert RuleDecision(rules, before, req, times, n) == Allowed;
    hide IsStamped, KeepsRules, AreLedgers, RuleDecision, AreExact;
    if AreExact(rules, evicted) {
      AllowedNext(rules, before, req, times, n);
    }
  }

  class AuthRateLimitMiddleware {
    const rules: seq<Rule>
    const counter: InMemoryCounter
    /** The requests that reached the application, in order. */
    ghost var passes: seq<Pass>

    constructor (rules: seq<Rule>, start: real)
      ensures this.rules == rules && passes == [] && fresh(counter) && counter.clock == start && counter.ledgers == map[]
      ensures Valid()
    {
      this.rules, passes := rules, [];
      counter := new InMemoryCounter(start);
      new;
      EmptyKeepsRules(rules, start);
    }

    ghost predicate Valid()
      reads this, counter
    {
      && counter.Valid()
      && KeepsRules(rules, counter.ledgers, counter.clock, counter.evicted)
      && IsAccounted(rules, counter.ledgers, passes)
    }

    /** Every rule sees the whole history of its window. */
    ghost predicate AllExact()
      reads this, counter
    {
      AreExact(rules, counter.evicted)
    }

    /** Checks one rule; a rule that does not match lets the request go on. */
    method CheckRule(i: nat, req: Request, times: seq<real>, ghost before: Ledgers) returns (decision: Decision)
      requires i < |rules| == |times| && counter.Valid()
      requires Proceeds(rules, before, counter.ledgers, counter.clock, counter.evicted, req, times, i)
      modifies counter
      ensures counter.Valid()
      ensures if decision.Allowed? then Proceeds(rules, before, counter.ledgers, counter.clock, counter.evicted, req, times, i + 1)
              else Stops(rules, before, counter.ledgers, counter.clock, counter.evicted, req, times, i, decision)
      ensures counter.clock == old(counter.clock) || counter.clock == times[i]
    {
      ghost var earlier, clock, evicted, crowded := counter.ledgers, counter.clock, counter.evicted, |counter.counts| > MAX_KEYS;
      assert clock <= times[i];
      hide IsCheck, Proceeds, Stops, Lists, CountsAfter, AfterEviction, Decide, Recent;
      if rules[i].Matches(req) {
        decision := counter.CheckAndIncrement(KeyOf(rules[i].namespace, req.ip), rules[i].limit, times[i]);
        ListsLedgers(counter.counts, counter.ledgers, times[i]);
        RuleChecked(rules, before, earlier, counter.ledgers, clock, evicted, crowded, req, times, i, decision);
      } else {
        RuleSkipped(rules, before, earlier, clock, evicted, req, times, i);
        decision := Allowed;
      }
    }

    /** Checks the rules in order until one does not allow the request. */
    method CheckRules(req: Request, times: seq<real>) returns (n: nat, decision: Decision)
      requires counter.Valid() && |times| == |rules|
      requires Proceeds(rules, counter.ledgers, counter.ledgers, counter.clock, counter.evicted, req, times, 0)
      modifies counter
      ensures counter.Valid() && n <= |rules|
      ensures if n == |rules| then Proceeds(rules, old(counter.ledgers), counter.ledgers, counter.clock, counter.evicted, req, times, n)
              else Stops(rules, old(counter.ledgers), counter.ledgers, counter.clock, counter.evicted, req, times, n, decision)
      ensures counter.clock == old(counter.clock) || counter.clock in times
    {
      hide Proceeds, Stops, Lists;
      ghost var before := counter.ledgers;
      n, decision := 0, Allowed;
      while n < |rules|
        invariant n <= |rules| && counter.Valid()
        invariant Proceeds(rules, before, counter.ledgers, counter.clock, counter.evicted, req, times, n)
        invariant counter.clock == old(counter.clock) || counter.clock in times
      {
        decision := CheckRule(n, req, times, before);
        if !decision.Allowed? {
          return;
        }
        n := n + 1;
      }
    }

    method Call(req: Request, times: seq<real>) returns (r: Response, ghost stamped: nat)
      requires Valid() && |times| == |rules| && Sorted(times) && (times != [] ==> counter.clock <= times[0])
      modifies this, counter
      ensures Valid()
      ensures AllExact() ==> IsVerdict(rules, old(counter.ledgers), req, times, r)
      ensures stamped <= |rules| && (r.PassedThrough? <==> stamped == |rules|)
      ensures IsStamped(rules, old(counter.ledgers), counter.ledgers, req, times, stamped)
      ensures counter.clock == old(counter.clock) || counter.clock in times
      ensures passes == if r.PassedThrough? then old(passes) + [Pass(req, times)] else old(passes)
    {
      ghost var before := counter.ledgers;
      RulesBegin(rules, counter.counts, before, counter.clock, counter.evicted, req, times);
      hide Proceeds, Stops, IsAccounted, Lists, AreExact, IsVerdict, IsStamped;
      var n, decision := CheckRules(req, times);
      RulesEnd(rules, before, counter.ledgers, counter.clock, counter.evicted, passes, req, times, n, decision);
      r, stamped := ResponseOf(rules, n, decision), n;
      if n == |rules| {
        passes := passes + [Pass(req, times)];
      }
    }

    /** For every rule that no other undercuts, every address and every half-open interval one window
        long, at most maxRequests matching requests reached the application. */
    lemma AtMostMaxRequests(i: nat, ip: Address, lo: real)
      requires Valid() && i < |rules| && IsBounded(rules, i, counter.evicted)
      ensures var inside := set n: nat | n < |passes| && passes[n].req.ip == ip && rules[i].Matches(passes[n].req)
                                        && lo <= passes[n].times[i] < lo + rules[i].limit.windowSeconds as real;
        |inside| <= if rules[i].limit.maxRequests < 1 then 0 else rules[i].limit.maxRequests
    {
      var k, c := KeyOf(rules[i].namespace, ip), rules[i].limit;
      assert KeepsRule(rules, i, ip, counter.ledgers, counter.clock, counter.evicted);
      assert IsAccountedAt(rules, counter.ledgers, passes, i, ip, lo, lo + c.Window());
      GuardedIsBounded(LedgerAt(counter.ledgers, k), counter.clock, c, lo);
      CountPassesExactly(passes, rules, i, ip, lo, lo + c.Window());
      InsideExactly(passes, rules, i, ip, lo);
    }
  }

  lemma InsideExactly(passes: seq<Pass>, rules: seq<Rule>, i: nat, ip: Address, lo: real)
    requires i < |rules| && forall p :: p in passes ==> |p.times| == |rules|
    ensures Inside(passes, rules, i, ip, lo, lo + rules[i].limit.Window()) ==
            set n: nat | n < |passes| && passes[n].req.ip == ip && rules[i].Matches(passes[n].req)
                         && lo <= passes[n].times[i] < lo + rules[i].limit.windowSeconds as real
  {
  }

  lemma EmptyKeepsRules(rules: seq<Rule>, clock: real)
    ensures KeepsRules(rules, map[], clock, false) && IsAccounted(rules, map[], [])
  {
    forall i: nat, ip: Address | i < |rules|
      ensures KeepsRule(rules, i, ip, map[], clock, false)
    {
      EmptyGuards(clock, rules[i].limit);
    }
  }

  lemma ListsLedgers(counts: map<Key, seq<real>>, ledgers: Ledgers, clock: real)
    requires Lists(counts, ledgers, clock)
    ensures AreLedgers(ledgers, clock)
  {
  }

  lemma RulesBegin(rules: seq<Rule>, counts: map<Key, seq<real>>, ledgers: Ledgers, clock: real, evicted: bool, req: Request,
      times: seq<real>)
    requires Lists(counts, ledgers, clock) && KeepsRules(rules, ledgers, clock, evicted)
    requires |times| == |rules| && Sorted(times) && (times != [] ==> clock <= times[0])
    ensures Proceeds(rules, ledgers, ledgers, clock, evicted, req, times, 0)
  {
    ListsLedgers(counts, ledgers, clock);
    assert forall k {:trigger LedgerAt(ledgers, k)} :: LedgerAt(ledgers, k).history + [] == LedgerAt(ledgers, k).history;
  }

  lemma RulesEnd(rules: seq<Rule>, before: Ledgers, ledgers: Ledgers, clock: real, evicted: bool, passes: seq<Pass>, req: Request,
      times: seq<real>, n: nat, r: Decision)
    requires |times| == |rules| && n <= |rules| && IsAccounted(rules, before, passes)
    requires if n == |rules| then Proceeds(rules, before, ledgers, clock, evicted, req, times, n)
             else Stops(rules, before, ledgers, clock, evicted, req, times, n, r)
    ensures KeepsRules(rules, ledgers, clock, evicted)
    ensures IsAccounted(rules, ledgers, if n == |rules| then passes + [Pass(req, times)] else passes)
    ensures AreExact(rules, evicted) ==> IsVerdict(rules, before, req, times, ResponseOf(rules, n, r))
    ensures IsStamped(rules, before, ledgers, req, times, n)
  {
    hide IsAccounted, IsStamped, KeepsRules, AreLedgers, AreExact, RuleDecision, AllowedUpTo, IsVerdict;
    StampedStaysAccounted(rules, before, ledgers, passes, req, times, n);
    if AreExact(rules, evicted) {
      IsVerdictOf(rules, before, req, times, n, r);
    }
  }

  // ---- A burst of requests against one rule -------------------------------------------

  /** The stamps of the requests that passed. */
  function Burst(limit: Limit, times: seq<real>): seq<Stamp> {
    seq(|times|, i requires 0 <= i < |times| => Stamp(times[i], limit))
  }

  lemma BurstDecides(rule: Rule, before: Ledgers, req: Request, times: seq<real>, now: real)
    requires rule.Matches(req) && rule.limit.maxRequests >= 1
    requires LedgerAt(before, KeyOf(rule.namespace, req.ip)).history == Burst(rule.limit, times)
    requires forall i :: 0 <= i < |times| ==> times[i] > now - rule.limit.windowSeconds as real
    ensures RuleDecision([rule], before, req, [now], 0).Allowed? <==> |times| < rule.limit.maxRequests
    ensures !RuleDecision([rule], before, req, [now], 0).IndexError?
  {
    assert Stamps([rule], req, [now], 0, KeyOf(rule.namespace, req.ip)) == [];
    assert Burst(rule.limit, times) + [] == Burst(rule.limit, times);
    assert Times(Burst(rule.limit, times)) == times;
    RecentOfNew(times, now - rule.limit.Window());
    hide Recent, Burst, Times, KeyOf, Rule.Matches;
    assert [rule][0] == rule && [now][0] == now;
  }

  lemma OneRuleVerdict(rule: Rule, before: Ledgers, req: Request, now: real, r: Response)
    requires IsVerdict([rule], before, req, [now], r) && !RuleDecision([rule], before, req, [now], 0).IndexError?
    ensures r.PassedThrough? <==> RuleDecision([rule], before, req, [now], 0).Allowed?
    ensures !r.PassedThrough? ==> r.TooManyRequests? && r.namespace == rule.namespace && r.maxRequests == rule.limit.maxRequests
  {
    hide RuleDecision;
    assert [rule][0] == rule;
    if r.PassedThrough? {
      assert AllowedUpTo([rule], before, req, [now], 1);
    }
  }

  lemma OneRuleStamps(rule: Rule, req: Request, now: real)
    requires rule.Matches(req)
    ensures Stamps([rule], req, [now], 0, KeyOf(rule.namespace, req.ip)) == []
    ensures Stamps([rule], req, [now], 1, KeyOf(rule.namespace, req.ip)) == [Stamp(now, rule.limit)]
  {
    assert [rule][0] == rule && [now][0] == now;
    assert [] + [Stamp(now, rule.limit)] == [Stamp(now, rule.limit)];
  }

  lemma OneRuleIsExact(rule: Rule, evicted: bool)
    requires rule.limit.windowSeconds <= 3600
    ensures AreExact([rule], evicted)
  {
  }

  /** The answer to a request after this many passed. */
  ghost predicate IsBurstAnswer(rule: Rule, n: nat, r: Response) {
    if n < rule.limit.maxRequests then r == PassedThrough
    else r.TooManyRequests? && r.namespace == rule.namespace && r.maxRequests == rule.limit.maxRequests
  }

  method MakeNext(limiter: AuthRateLimitMiddleware, rule: Rule, req: Request, ghost passed: seq<real>, now: real) returns (r: Response)
    requires limiter.Valid() && limiter.rules == [rule] && limiter.counter.clock <= now
    requires rule.Matches(req) && 1 <= rule.limit.maxRequests && rule.limit.windowSeconds <= 3600
    requires LedgerAt(limiter.counter.ledgers, KeyOf(rule.namespace, req.ip)).history == Burst(rule.limit, passed)
    requires forall i :: 0 <= i < |passed| ==> passed[i] > now - rule.limit.windowSeconds as real
    modifies limiter, limiter.counter
    ensures limiter.Valid() && limiter.counter.clock <= now && IsBurstAnswer(rule, |passed|, r)
    ensures LedgerAt(limiter.counter.ledgers, KeyOf(rule.namespace, req.ip)).history ==
            Burst(rule.limit, if |passed| < rule.limit.maxRequests then passed + [now] else passed)
  {
    hide AuthRateLimitMiddleware.Valid, IsVerdict, Rule.Matches, KeyOf, LedgerAt, AreExact, Burst, IsStamped, IsBurstAnswer;
    ghost var before := limiter.counter.ledgers;
    ghost var stamped;
    assert Sorted([now]);
    r, stamped := limiter.Call(req, [now]);
    OneRuleIsExact(rule, limiter.counter.evicted);
    BurstAnswered(rule, before, limiter.counter.ledgers, req, passed, now, r, stamped);
  }

  lemma BurstAnswered(rule: Rule, before: Ledgers, after: Ledgers, req: Request, passed: seq<real>, now: real, r: Response, stamped: nat)
    requires rule.Matches(req) && 1 <= rule.limit.maxRequests
    requires LedgerAt(before, KeyOf(rule.namespace, req.ip)).history == Burst(rule.limit, passed)
    requires forall i :: 0 <= i < |passed| ==> passed[i] > now - rule.limit.windowSeconds as real
    requires IsVerdict([rule], before, req, [now], r)
    requires stamped <= 1 && (r.PassedThrough? <==> stamped == 1) && IsStamped([rule], before, after, req, [now], stamped)
    ensures IsBurstAnswer(rule, |passed|, r)
    ensures LedgerAt(after, KeyOf(rule.namespace, req.ip)).history ==
            Burst(rule.limit, if |passed| < rule.limit.maxRequests then passed + [now] else passed)
  {
    var k := KeyOf(rule.namespace, req.ip);
    BurstDecides(rule, before, req, passed, now);
    OneRuleStamps(rule, req, now);
    OneRuleVerdict(rule, before, req, now, r);
    hide RuleDecision, Stamps, IsVerdict, Rule.Matches, KeyOf;
    assert LedgerAt(after, k) == LedgerAt(after, k);
    assert Burst(rule.limit, passed) + [Stamp(now, rule.limit)] == Burst(rule.limit, passed + [now]);
    assert Burst(rule.limit, passed) + [] == Burst(rule.limit, passed);
  }

  /** Of the requests that one address makes within one window against a fresh limiter with one rule that
      they match, the first maxRequests pass, and all others are refused in the name of the rule. */
  method MakeBurst(rule: Rule, reqs: seq<Request>, times: seq<real>, ip: Address) returns (answers: seq<Response>)
    requires 1 <= rule.limit.maxRequests && rule.limit.windowSeconds <= 3600 && |times| == |reqs|
    requires forall i :: 0 <= i < |reqs| ==> reqs[i].ip == ip && rule.Matches(reqs[i])
    requires forall i, j :: 0 <= i <= j < |times| ==> times[i] <= times[j] < times[i] + rule.limit.windowSeconds as real
    ensures |answers| == |reqs|
    ensures forall i :: 0 <= i < |reqs| ==>
              if i < rule.limit.maxRequests then answers[i] == PassedThrough
              else answers[i].TooManyRequests? && answers[i].namespace == rule.namespace && answers[i].maxRequests == rule.limit.maxRequests
  {
    answers := [];
    if reqs == [] {
      return;
    }
    hide Rule.Matches, KeyOf, Burst, AuthRateLimitMiddleware.Valid, LedgerAt;
    var limiter := new AuthRateLimitMiddleware([rule], times[0]);
    ghost var passed: seq<real> := [];
    BurstBegins(rule, ip);
    for i := 0 to |reqs|
      invariant limiter.Valid() && limiter.rules == [rule] && fresh(limiter) && fresh(limiter.counter)
      invariant i < |times| ==> limiter.counter.clock <= times[i]
      invariant |answers| == i && passed == times[..if i < rule.limit.maxRequests then i else rule.limit.maxRequests]
      invariant LedgerAt(limiter.counter.ledgers, KeyOf(rule.namespace, ip)).history == Burst(rule.limit, passed)
      invariant forall j :: 0 <= j < i ==> IsBurstAnswer(rule, if j < rule.limit.maxRequests then j else rule.limit.maxRequests, answers[j])
    {
      var r := MakeNext(limiter, rule, reqs[i], passed, times[i]);
      if |passed| < rule.limit.maxRequests {
        passed := passed + [times[i]];
      }
      answers := answers + [r];
    }
  }

  lemma BurstBegins(rule: Rule, ip: Address)
    ensures LedgerAt(map[], KeyOf(rule.namespace, ip)).history == Burst(rule.limit, [])
  {
  }

  /** For example, the sixth login of an address within a minute is refused. */
  method SixLogins(ip: Address) returns (answers: seq<Response>)
    ensures |answers| == 6 && answers[5].TooManyRequests? && answers[5].namespace == "auth:login"
    ensures forall i :: 0 <= i < 5 ==> answers[i] == PassedThrough
  {
    LoginRuleMatches(ip);
    hide Rule.Matches;
    var login := Request("POST", "/api/auth/login", ip);
    answers := MakeBurst(LOGIN, [login, login, login, login, login, login], [0.0, 0.0, 0.0, 0.0, 0.0, 0.0], ip);
  }
}
