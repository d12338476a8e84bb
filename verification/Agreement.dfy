/**
 * Over whole runs of the client's operations, each filed connection targets the namespace its
 * service is bound to, except for services whose last failover rewrote the binding without filing.
 */
module Agreement {
  import opened Wrappers
  import opened Targets
  import opened NamespaceCache
  import opened ConnStorage
  import opened GrpcCallConfig
  import opened GrpcClient
  import opened Failover

  datatype Op =
    | Connect(service: string, listing: Listing, dialOk: bool)
    | Change(delivered: Bindings)
    | Call(target: string, env: Env)

  function Perform(w: World, op: Op): World {
    match op
    case Connect(service, listing, dialOk) => GetConnFrom(w, service, listing, dialOk).0
    case Change(delivered) => ChangeFrom(w, delivered)
    case Call(target, env) => Retry(w, target, env).0
  }

  /** A call that rebinds its service and does not file a connection for it. */
  predicate Strands(w: World, target: string, env: Env) {
    var (w', result) := Retry(w, target, env);
    result != Returned(true) && w'.namespaces != w.namespaces
  }

  /** The services whose filed connection need not match: stranded, and not rebound or filed since. */
  function Stranded(w: World, stranded: set<string>, op: Op): set<string> {
    match op
    case Connect(service, _, _) =>
      if service !in w.conns && service in Perform(w, op).conns then stranded - {service} else stranded
    case Change(delivered) => stranded - ChangedKeys(w.namespaces, delivered)
    case Call(target, env) =>
      match ParseTarget(target)
      case Malformed => stranded
      case Parsed(service, _) =>
        if Retry(w, target, env).1 == Returned(true) then stranded - {service}
        else if Strands(w, target, env) then stranded + {service}
        else stranded
  }

  function Run(w: World, ops: seq<Op>): (World, set<string>) {
    if ops == [] then (w, {})
    else
      var (w', stranded) := Run(w, ops[..|ops| - 1]);
      (Perform(w', ops[|ops| - 1]), Stranded(w', stranded, ops[|ops| - 1]))
  }

  predicate AgreesAt(w: World, service: string) {
    service in w.conns ==>
      service in w.namespaces && w.conns[service] == Conn(Target(service, w.namespaces[service]))
  }

  ghost predicate Agrees(w: World, stranded: set<string>) {
    forall s :: s !in stranded ==> AgreesAt(w, s)
  }

  lemma {:induction false} RebindOnly(m: Bindings, s: string, n: string)
    ensures m[s := n] - {s} == m - {s}
  {
  }

  /**
   * All a call does to bindings and connections, for the service `s` of its target: it may rebind `s`,
   * and it files a connection exactly when it says so, under `s` and to the namespace `s` is bound to.
   */
  lemma {:induction false} RetryEffect(
    w: World, s: string, target: string, changed: bool, i: nat, retries: nat, env: Env)
    requires ParseTarget(target).Parsed? ==> ParseTarget(target).service == s
    requires changed ==> s in w.namespaces && target == Target(s, w.namespaces[s])
    ensures var (w', result) := RetryFrom(w, target, changed, i, retries, env);
            && w'.namespaces - {s} == w.namespaces - {s}
            && (s in w.namespaces ==> s in w'.namespaces)
            && (if result == Returned(true)
                then s in w'.namespaces && w'.conns == w.conns[s := Conn(Target(s, w'.namespaces[s]))]
                else w'.conns == w.conns)
    decreases retries - i
  {
    if i < retries {
      match env.invoke(i, target)
      case Succeeds =>
      case OtherError => RetryEffect(w, s, target, changed, i + 1, retries, env);
      case Unavailable =>
        match ParseTarget(target)
        case Malformed =>
        case Parsed(_, namespace) =>
          var (cache', answer) := Lookup(ServeAll(w.cache, env.others(i)), s, namespace, env.list(i));
          if answer.Found? {
            var n := answer.namespace;
            var w1 := w.(cache := cache', namespaces := w.namespaces[s := n]);
            TargetRoundTrip(s, n);
            RebindOnly(w.namespaces, s, n);
            if env.dialOk(i, Target(s, n)) {
              RetryEffect(w1, s, Target(s, n), true, i + 1, retries, env);
            }
          }
    }
  }

  /** A target that cannot be taken apart is never acted upon. */
  lemma {:induction false} MalformedCall(w: World, target: string, i: nat, retries: nat, env: Env)
    requires ParseTarget(target).Malformed?
    ensures RetryFrom(w, target, false, i, retries, env).0 == w
    decreases retries - i
  {
    if i < retries && env.invoke(i, target) == OtherError {
      MalformedCall(w, target, i + 1, retries, env);
    }
  }

  lemma {:induction false} SameElsewhere(m: Bindings, m': Bindings, s: string, t: string)
    requires m' - {s} == m - {s} && t != s
    ensures t in m' <==> t in m
    ensures t in m ==> m'[t] == m[t]
  {
    assert t in m' <==> t in m' - {s};
    assert t in m <==> t in m - {s};
    if t in m {
      assert (m - {s})[t] == (m' - {s})[t];
    }
  }

  lemma {:induction false} CallKeepsAgreement(w: World, stranded: set<string>, target: string, env: Env)
    requires Agrees(w, stranded)
    ensures Agrees(Perform(w, Call(target, env)), Stranded(w, stranded, Call(target, env)))
  {
    match ParseTarget(target)
    case Malformed => MalformedCall(w, target, 0, RETRIES, env);
    case Parsed(s, _) =>
      RetryEffect(w, s, target, false, 0, RETRIES, env);
      var w' := Perform(w, Call(target, env));
      forall t | t !in Stranded(w, stranded, Call(target, env))
        ensures AgreesAt(w', t)
      {
        if t != s {
          SameElsewhere(w.namespaces, w'.namespaces, s, t);
          assert AgreesAt(w, t);
        } else if Retry(w, target, env).1 != Returned(true) {
          assert AgreesAt(w, s);
        }
      }
  }

  lemma {:induction false} StepKeepsAgreement(w: World, stranded: set<string>, op: Op)
    requires Agrees(w, stranded)
    ensures Agrees(Perform(w, op), Stranded(w, stranded, op))
  {
    match op
    case Connect(service, listing, dialOk) =>
      forall t | t !in Stranded(w, stranded, op)
        ensures AgreesAt(Perform(w, op), t)
      {
        if t in w.conns {
          assert AgreesAt(w, t);
        }
      }
    case Change(delivered) =>
      forall t | t !in Stranded(w, stranded, op)
        ensures AgreesAt(Perform(w, op), t)
      {
        if t !in ChangedKeys(w.namespaces, delivered) {
          assert AgreesAt(w, t);
        }
      }
    case Call(target, env) => CallKeepsAgreement(w, stranded, target, env);
  }

  /** Every run, from a world whose filed connections all agree, keeps all but the stranded ones agreeing. */
  lemma {:induction false} AgreementOverRuns(w: World, ops: seq<Op>)
    requires Agrees(w, {})
    ensures Agrees(Run(w, ops).0, Run(w, ops).1)
  {
    if ops != [] {
      var (w', stranded) := Run(w, ops[..|ops| - 1]);
      AgreementOverRuns(w, ops[..|ops| - 1]);
      StepKeepsAgreement(w', stranded, ops[|ops| - 1]);
    }
  }

  /**
   * The exception is no larger than it must be: a call spoils the agreement of its service exactly when it
   * strands it.
   */
  lemma {:induction false} CallSpoilsExactly(w: World, target: string, env: Env)
    requires ParseTarget(target).Parsed?
    requires ParseTarget(target).service in w.conns && AgreesAt(w, ParseTarget(target).service)
    ensures AgreesAt(Perform(w, Call(target, env)), ParseTarget(target).service) <==> !Strands(w, target, env)
  {
    var s := ParseTarget(target).service;
    RetryEffect(w, s, target, false, 0, RETRIES, env);
    var w' := Perform(w, Call(target, env));
    if AgreesAt(w', s) && w'.conns == w.conns {
      TargetInjective(s, w.namespaces[s], w'.namespaces[s]);
      forall t ensures t in w'.namespaces <==> t in w.namespaces
               ensures t in w.namespaces ==> w'.namespaces[t] == w.namespaces[t]
      {
        if t != s {
          SameElsewhere(w.namespaces, w'.namespaces, s, t);
        }
      }
      assert w'.namespaces == w.namespaces;
    }
  }

  // --- Environments in which no call strands ---

  /** With a steady listing whose namespaces serve, every failover files what it binds. */
  lemma {:induction false} SteadyNeverStrands(w: World, service: string, n: string, env: Env, items: seq<Item>)
    requires Steady(env, service, items) && ProperListing(items, service) && DotFree(service) && DotFree(n)
    requires ProperEntry(w.cache, service)
    ensures !Strands(w, Target(service, n), env)
  {
    FailoverBound(w, service, n, env, items);
  }

  ghost predicate ProperItems(items: seq<Item>) {
    Distinct(items) && forall item :: item in items ==> DotFree(item.namespace)
  }

  ghost predicate ProperCache(cache: Cache) {
    forall s :: s in cache ==> ProperEntry(cache, s)
  }

  lemma {:induction false} ListedDotFree(items: seq<Item>, service: string)
    requires forall item :: item in items ==> DotFree(item.namespace)
    ensures forall n :: n in NamespacesOf(items, service) ==> DotFree(n)
  {
    if items != [] {
      ListedDotFree(items[..|items| - 1], service);
    }
  }

  lemma {:induction false} LookupKeepsProper(cache: Cache, service: string, origin: string, items: seq<Item>)
    requires ProperItems(items) && ProperCache(cache)
    ensures ProperCache(Lookup(cache, service, origin, Services(items)).0)
  {
    var listed := NamespacesOf(items, service);
    var sorted := Sort(listed, if origin in listed then origin else "");
    var cache' := Lookup(cache, service, origin, Services(items)).0;
    ListedDotFree(items, service);
    ListedDistinct(items, service);
    SortSorts(listed, if origin in listed then origin else "");
    forall n | n in sorted
      ensures DotFree(n)
    {
      assert n in multiset(sorted);
      assert n in listed;
    }
    forall s | s in cache'
      ensures ProperEntry(cache', s)
    {
      if s in cache {
        assert ProperEntry(cache, s);
      }
    }
  }

  lemma {:induction false} OthersKeepProper(cache: Cache, queries: seq<Query>, items: seq<Item>)
    requires ProperItems(items) && ProperCache(cache) && OthersSee(queries, items)
    ensures ProperCache(ServeAll(cache, queries))
  {
    if queries != [] {
      var before, q := queries[..|queries| - 1], queries[|queries| - 1];
      OthersKeepProper(cache, before, items);
      assert q.listing == Services(items);
      LookupKeepsProper(ServeAll(cache, before), q.service, q.origin, items);
    }
  }

  lemma {:induction false} CallKeepsProper(
    w: World, target: string, changed: bool, i: nat, retries: nat, env: Env, items: seq<Item>)
    requires ProperItems(items) && ProperCache(w.cache)
    requires forall k :: env.list(k) == Services(items) && OthersSee(env.others(k), items)
    ensures ProperCache(RetryFrom(w, target, changed, i, retries, env).0.cache)
    decreases retries - i
  {
    if i < retries {
      match env.invoke(i, target)
      case Succeeds =>
      case OtherError => CallKeepsProper(w, target, changed, i + 1, retries, env, items);
      case Unavailable =>
        match ParseTarget(target)
        case Malformed =>
        case Parsed(service, namespace) =>
          assert env.list(i) == Services(items);
          OthersKeepProper(w.cache, env.others(i), items);
          LookupKeepsProper(ServeAll(w.cache, env.others(i)), service, namespace, items);
          var (cache', answer) := Lookup(ServeAll(w.cache, env.others(i)), service, namespace, env.list(i));
          if answer.Found? {
            var w' := w.(cache := cache', namespaces := w.namespaces[service := answer.namespace]);
            var target' := Target(service, answer.namespace);
            if env.dialOk(i, target') {
              CallKeepsProper(w', target', true, i + 1, retries, env, items);
            }
          }
    }
  }

  /** Whoever looks anything up sees the same listing, and a call's service is listed and served as it says. */
  ghost predicate SeesSteady(op: Op, items: seq<Item>) {
    match op
    case Connect(_, listing, _) => listing == Services(items)
    case Change(_) => true
    case Call(target, env) =>
      exists service, n :: target == Target(service, n)
                           && NamespacesOf(items, service) != [] && Steady(env, service, items)
  }

  lemma {:induction false} SteadyStep(w: World, op: Op, items: seq<Item>)
    requires ProperItems(items) && ProperCache(w.cache) && SeesSteady(op, items)
    ensures Stranded(w, {}, op) == {} && ProperCache(Perform(w, op).cache)
  {
    match op
    case Connect(service, listing, dialOk) => LookupKeepsProper(w.cache, service, "", items);
    case Change(_) =>
    case Call(target, env) =>
      var service, n :| target == Target(service, n)
                        && NamespacesOf(items, service) != [] && Steady(env, service, items);
      forall k: nat
        ensures env.list(k) == Services(items) && OthersSee(env.others(k), items)
      {
        assert SteadyAt(env, service, items, k, target);
      }
      CallKeepsProper(w, target, false, 0, RETRIES, env, items);
      TargetRoundTrip(service, n);
      if DotFree(service) && DotFree(n) {
        ListedDotFree(items, service);
        SteadyNeverStrands(w, service, n, env, items);
      }
  }

  /**
   * Agreement without exception: while all lookups see one listing and the namespaces listed for the
   * called services serve, no run of connects, configuration changes and calls leaves a stale connection.
   */
  lemma {:induction false} AgreementInSteadyRuns(w: World, ops: seq<Op>, items: seq<Item>)
    requires Agrees(w, {}) && ProperItems(items) && ProperCache(w.cache)
    requires forall op :: op in ops ==> SeesSteady(op, items)
    ensures Run(w, ops).1 == {} && Agrees(Run(w, ops).0, {}) && ProperCache(Run(w, ops).0.cache)
  {
    if ops != [] {
      var before, op := ops[..|ops| - 1], ops[|ops| - 1];
      AgreementInSteadyRuns(w, before, items);
      assert op in ops;
      SteadyStep(Run(w, before).0, op, items);
      StepKeepsAgreement(Run(w, before).0, {}, op);
    }
  }

  // --- Environments in which calls strand ---

  /** One listing, dials that work, and targets that serve or do not, whether listed or not. */
  ghost predicate Standing(env: Env, items: seq<Item>, healthy: set<string>) {
    forall i, target ::
      && env.invoke(i, target) == (if target in healthy then Succeeds else Unavailable)
      && env.list(i) == Services(items) && env.others(i) == [] && env.dialOk(i, target)
  }

  /** Where a lookup sends a caller, and the cache it leaves. */
  function Sent(cache: Cache, service: string, n: string, items: seq<Item>): string {
    var answer := Lookup(cache, service, n, Services(items)).1;
    if answer.Found? then answer.namespace else n
  }

  function Left(cache: Cache, service: string, n: string, items: seq<Item>): Cache {
    Lookup(cache, service, n, Services(items)).0
  }

  lemma {:induction false} StandingAttempt(
    w: World, service: string, n: string, changed: bool, i: nat, env: Env, items: seq<Item>, healthy: set<string>)
    requires Standing(env, items, healthy) && ProperListing(items, service) && ProperEntry(w.cache, service)
    requires DotFree(service) && DotFree(n) && i < RETRIES
    ensures var n', cache' := Sent(w.cache, service, n, items), Left(w.cache, service, n, items);
            && DotFree(n') && ProperEntry(cache', service)
            && (if Target(service, n) in healthy
                then RetryFrom(w, Target(service, n), changed, i, RETRIES, env).1 == Returned(changed)
                     && RetryFrom(w, Target(service, n), changed, i, RETRIES, env).0.namespaces == w.namespaces
                else RetryFrom(w, Target(service, n), changed, i, RETRIES, env) ==
                     RetryFrom(w.(cache := cache', namespaces := w.namespaces[service := n']),
                               Target(service, n'), true, i + 1, RETRIES, env))
  {
    var target := Target(service, n);
    assert env.invoke(i, target) == (if target in healthy then Succeeds else Unavailable);
    assert env.list(i) == Services(items) && env.others(i) == [];
    TargetRoundTrip(service, n);
    LookupRefreshes(w.cache, service, n, items);
    ProperAfterLookup(w.cache, service, service, n, items);
    assert env.dialOk(i, Target(service, Sent(w.cache, service, n, items)));
  }

  /** The third lookup of a call stays where the second sent it. */
  lemma {:induction false} ThirdStays(cache: Cache, service: string, n: string, items: seq<Item>)
    requires ProperListing(items, service) && "" !in NamespacesOf(items, service)
    ensures var n1, c1 := Sent(cache, service, n, items), Left(cache, service, n, items);
            var n2, c2 := Sent(c1, service, n1, items), Left(c1, service, n1, items);
            Sent(c2, service, n2, items) == n2
  {
    var n1, c1 := Sent(cache, service, n, items), Left(cache, service, n, items);
    var n2, c2 := Sent(c1, service, n1, items), Left(c1, service, n1, items);
    MyLookupApproaches(cache, service, n, items);
    MyLookupApproaches(c1, service, n1, items);
    FreshNonEmpty(c2, service, items);
    LookupRefreshes(c2, service, n2, items);
  }

  /** A call from one attempt before the last on. */
  lemma {:induction false} StandingTail(
    w: World, service: string, n: string, env: Env, items: seq<Item>, healthy: set<string>)
    requires Standing(env, items, healthy) && ProperListing(items, service) && ProperEntry(w.cache, service)
    requires DotFree(service) && DotFree(n)
    ensures var n', c := Sent(w.cache, service, n, items), Left(w.cache, service, n, items);
            var (w', result) := RetryFrom(w, Target(service, n), true, 1, RETRIES, env);
            if Target(service, n) in healthy || Target(service, n') in healthy then result == Returned(true)
            else result == MaxRetries
                 && w'.namespaces == w.namespaces[service := n'][service := Sent(c, service, n', items)]
  {
    var n', c := Sent(w.cache, service, n, items), Left(w.cache, service, n, items);
    StandingAttempt(w, service, n, true, 1, env, items, healthy);
    var w1 := w.(cache := c, namespaces := w.namespaces[service := n']);
    StandingAttempt(w1, service, n', true, 2, env, items, healthy);
  }

  lemma {:induction false} StandingCall(
    w: World, service: string, n: string, env: Env, items: seq<Item>, healthy: set<string>)
    requires Standing(env, items, healthy) && ProperListing(items, service) && ProperEntry(w.cache, service)
    requires DotFree(service) && DotFree(n)
    ensures var n1, c1 := Sent(w.cache, service, n, items), Left(w.cache, service, n, items);
            var n2, c2 := Sent(c1, service, n1, items), Left(c1, service, n1, items);
            var (w', result) := Retry(w, Target(service, n), env);
            if Target(service, n) in healthy then w'.namespaces == w.namespaces
            else if Target(service, n1) in healthy || Target(service, n2) in healthy then result == Returned(true)
            else result == MaxRetries
                 && w'.namespaces == w.namespaces[service := n1][service := n2][service := Sent(c2, service, n2, items)]
  {
    var n1, c1 := Sent(w.cache, service, n, items), Left(w.cache, service, n, items);
    var w1 := w.(cache := c1, namespaces := w.namespaces[service := n1]);
    StandingAttempt(w, service, n, false, 0, env, items, healthy);
    StandingTail(w1, service, n1, env, items, healthy);
  }

  /**
   * What it takes to strand a call while the cluster holds still: neither its target serves nor the two
   * the lookups send it to, and the second of these is not the bound one. The target need not be bound.
   */
  lemma {:induction false} StrandsExactly(
    w: World, service: string, n: string, env: Env, items: seq<Item>, healthy: set<string>)
    requires Standing(env, items, healthy) && ProperListing(items, service) && "" !in NamespacesOf(items, service)
    requires DotFree(service) && DotFree(n) && ProperEntry(w.cache, service)
    ensures var n1, c1 := Sent(w.cache, service, n, items), Left(w.cache, service, n, items);
            var n2 := Sent(c1, service, n1, items);
            Strands(w, Target(service, n), env) <==>
            && Target(service, n) !in healthy && Target(service, n1) !in healthy && Target(service, n2) !in healthy
            && !(service in w.namespaces && w.namespaces[service] == n2)
  {
    var n1, c1 := Sent(w.cache, service, n, items), Left(w.cache, service, n, items);
    StandingCall(w, service, n, env, items, healthy);
    ThirdStays(w.cache, service, n, items);
    BackAgainExactly(w.namespaces, service, n1, Sent(c1, service, n1, items));
  }

  lemma {:induction false} BackAgainExactly(m: Bindings, service: string, n1: string, n2: string)
    ensures m[service := n1][service := n2][service := n2] == m <==> service in m && m[service] == n2
  {
    var m' := m[service := n1][service := n2][service := n2];
    assert service in m' && m'[service] == n2;
    if service in m && m[service] == n2 {
      assert m' == m;
    }
  }

  /** The only listed namespace does not serve either: the service is rebound, and the old connection stays. */
  lemma {:induction false} RedialedInVain()
    ensures var w := World(map[], map["s" := "a"], map["s" := Conn(Target("s", "a"))]);
            var env := Env((i, t) => Unavailable, i => [], i => Services([Item("s", "b")]), (i, t) => true);
            Strands(w, Target("s", "a"), env) && !AgreesAt(Perform(w, Call(Target("s", "a"), env)), "s")
  {
    var w := World(map[], map["s" := "a"], map["s" := Conn(Target("s", "a"))]);
    var items := [Item("s", "b")];
    var env := Env((i, t) => Unavailable, i => [], i => Services(items), (i, t) => true);
    assert items[..0] == [] && NamespacesOf(items[..0], "s") == [];
    assert NamespacesOf(items, "s") == ["b"];
    LookupRefreshes(map[], "s", "a", items);
    LookupRefreshes(Left(map[], "s", "a", items), "s", "b", items);
    StrandsExactly(w, "s", "a", env, items, {});
    TargetRoundTrip("s", "a");
    CallSpoilsExactly(w, Target("s", "a"), env);
  }

  /**
   * Why the operations have to be atomic. When a configuration value arrives between dialing a service
   * and filing the connection, the filed connection disagrees exactly if that value rebinds the service.
   */
  lemma {:induction false} ConnectRaceExactly(
    w: World, service: string, listing: Listing, dialOk: bool, delivered: Bindings)
    requires service !in w.conns && DialFrom(w, service, listing, dialOk).1.Got?
    ensures var (dialed, result) := DialFrom(w, service, listing, dialOk);
            var end := StoreIfAbsent(ChangeFrom(dialed, delivered), service, result.conn);
            AgreesAt(end, service) <==> service !in ChangedKeys(dialed.namespaces, delivered)
  {
    var (dialed, result) := DialFrom(w, service, listing, dialOk);
    assert service in dialed.namespaces && result.conn == Conn(Target(service, dialed.namespaces[service]));
    if service in delivered {
      TargetInjective(service, dialed.namespaces[service], delivered[service]);
    }
  }
}
