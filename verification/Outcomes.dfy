/**
 * How a connect and a retried call end, said without the code that runs them: what a connect gives in
 * each situation, at which attempt a call ends and which event around it is the cause.
 */
module Outcomes {
  import opened Wrappers
  import opened Targets
  import opened NamespaceCache
  import opened ConnStorage
  import opened GrpcCallConfig
  import opened GrpcClient
  import opened Failover
  import opened Agreement

  // --- Connects ---

  /** The namespace a service without a binding is given: out of a cached entry, or by a listing. */
  ghost predicate ChosenFor(cache: Cache, service: string, listing: Listing, n: string) {
    if service in cache && cache[service] != [] && "" !in cache[service] then n == cache[service][0]
    else if listing.NilList? then n == ""
    else
      && listing.Services? && Item(service, n) in listing.items
      && (if Item(service, "default") in listing.items then n == "default"
          else forall m :: Item(service, m) in listing.items && m != n ==> TextLess(n, m))
  }

  /** What a connect leaves and gives once its service is bound to `n`. */
  predicate Connected(w: World, service: string, n: string, dialOk: bool, end: (World, ConnResult)) {
    end == if dialOk then (w.(conns := w.conns[service := Conn(Target(service, n))]), Got(Conn(Target(service, n))))
           else (w, DialFailed)
  }

  lemma {:induction false} FirstNamespace(cache: Cache, service: string, listing: Listing)
    requires listing.Services? ==> Distinct(listing.items)
    ensures var answer := Lookup(cache, service, "", listing).1;
            answer.Found? ==> ChosenFor(cache, service, listing, answer.namespace)
  {
    LookupFinds(cache, service, "", listing);
    if MustRelist(cache, service, "") && listing.Services? {
      var listed := NamespacesOf(listing.items, service);
      ListedDistinct(listing.items, service);
      SortSorts(listed, "");
      SameElementsDistinct(listed, Sort(listed, ""));
      forall n ensures n in listed <==> n in Sort(listed, "") {
        assert n in multiset(listed) <==> n in multiset(Sort(listed, ""));
      }
      if listed != [] {
        SortedShape(Sort(listed, ""), "");
      }
    }
  }

  /**
   * What a connect gives. A filed connection is handed out and nothing changes. Otherwise a service bound
   * to a namespace is dialed there, whatever the cluster lists, and only the connection is new. A service
   * without a binding is bound to the namespace chosen for it, even if the dial fails then; the connect
   * fails without a trace exactly when a listing is needed and there is none, and faults exactly when the
   * listing that is needed does not have the service.
   */
  lemma {:induction false} ConnectOutcome(w: World, service: string, listing: Listing, dialOk: bool)
    requires listing.Services? ==> Distinct(listing.items)
    ensures var end := GetConnFrom(w, service, listing, dialOk);
            var relist := service in w.cache && w.cache[service] != [] ==> "" in w.cache[service];
            if service in w.conns then end == (w, Got(w.conns[service]))
            else if service in w.namespaces && w.namespaces[service] != "" then
              Connected(w, service, w.namespaces[service], dialOk, end)
            else
              && (end.1.NoNamespace? <==> relist && (listing.NoClient? || listing.ListFailed?))
              && (end.1.Faulted? <==> relist && listing.Services? && forall n :: Item(service, n) !in listing.items)
              && (end.1.NoNamespace? ==> end.0 == w)
              && (end.1.Faulted? ==> end.0.namespaces == w.namespaces && end.0.conns == w.conns)
              && (end.1.Got? || end.1.DialFailed? ==>
                    && service in end.0.namespaces
                    && var n := end.0.namespaces[service];
                       && ChosenFor(w.cache, service, listing, n)
                       && end.0.cache - {service} == w.cache - {service}
                       && Connected(w.(cache := end.0.cache, namespaces := w.namespaces[service := n]),
                                    service, n, dialOk, end))
  {
    LookupOutcome(w.cache, service, "", listing);
    LookupFailsExactly(w.cache, service, "", listing);
    FirstNamespace(w.cache, service, listing);
  }

  /** A connect that finds a connection filed by another one meanwhile leaves it; otherwise it files its own. */
  lemma {:induction false} LateFilingYields(w: World, service: string, conn: Conn, s: string)
    ensures var w' := StoreIfAbsent(w, service, conn);
            && w'.cache == w.cache && w'.namespaces == w.namespaces
            && (s in w'.conns <==> s in w.conns || s == service)
            && (s in w'.conns ==> w'.conns[s] == if s in w.conns then w.conns[s] else conn)
  {
  }

  // --- Configuration changes ---

  /**
   * What a delivered value does: its bindings win, all others stay, and a connection survives, as it is,
   * exactly if the value does not give its service another namespace.
   */
  lemma {:induction false} ChangeOutcome(w: World, delivered: Bindings, s: string)
    ensures var w' := ChangeFrom(w, delivered);
            && w'.cache == w.cache
            && (s in delivered ==> s in w'.namespaces && w'.namespaces[s] == delivered[s])
            && (s !in delivered ==> (s in w'.namespaces <==> s in w.namespaces))
            && (s !in delivered && s in w.namespaces ==> w'.namespaces[s] == w.namespaces[s])
            && (s in w'.conns <==>
                  s in w.conns && (s in delivered ==> s in w.namespaces && w.namespaces[s] == delivered[s]))
            && (s in w'.conns ==> w'.conns[s] == w.conns[s])
  {
  }

  /** A writer's own publication coming back changes nothing and drops no connection, nor does a repetition. */
  lemma {:induction false} EchoChangesNothing(w: World, delivered: Bindings)
    ensures ChangeFrom(w, w.namespaces) == w
    ensures ChangeFrom(ChangeFrom(w, delivered), delivered) == ChangeFrom(w, delivered)
  {
    assert w.namespaces + w.namespaces == w.namespaces && ChangedKeys(w.namespaces, w.namespaces) == {};
    assert w.conns - {} == w.conns;
    var w' := ChangeFrom(w, delivered);
    assert w'.namespaces + delivered == w'.namespaces && ChangedKeys(w'.namespaces, delivered) == {};
    assert w'.conns - {} == w'.conns;
  }

  // --- Calls, attempt by attempt ---

  /** Where a call stands before an attempt. */
  datatype Stand = Stand(world: World, target: string)

  /** Where an unavailable target leaves a call that does not end there. */
  function Moved(at: Stand, env: Env, i: nat): Stand {
    match ParseTarget(at.target)
    case Malformed => at
    case Parsed(service, namespace) =>
      var (cache', answer) := Lookup(ServeAll(at.world.cache, env.others(i)), service, namespace, env.list(i));
      if answer.Found? then
        Stand(at.world.(cache := cache', namespaces := at.world.namespaces[service := answer.namespace]),
              Target(service, answer.namespace))
      else at.(world := at.world.(cache := cache'))
  }

  /** Where the call stands before attempt `k`, should it come to that. */
  function Before(w: World, target: string, env: Env, k: nat): Stand {
    if k == 0 then Stand(w, target)
    else
      var at := Before(w, target, env, k - 1);
      if env.invoke(k - 1, at.target) == Unavailable then Moved(at, env, k - 1) else at
  }

  /** What the lookup after an unavailable attempt answers. */
  function AnswerAt(at: Stand, env: Env, i: nat): Answer
    requires ParseTarget(at.target).Parsed?
  {
    var Parsed(service, namespace) := ParseTarget(at.target);
    Lookup(ServeAll(at.world.cache, env.others(i)), service, namespace, env.list(i)).1
  }

  /** The attempt fails, and the call goes on: with another error as it is, or on a new connection. */
  predicate GoesOn(at: Stand, env: Env, i: nat) {
    match env.invoke(i, at.target)
    case Succeeds => false
    case OtherError => true
    case Unavailable =>
      && ParseTarget(at.target).Parsed?
      && AnswerAt(at, env, i).Found?
      && env.dialOk(i, Moved(at, env, i).target)
  }

  ghost predicate Reaches(w: World, target: string, env: Env, k: nat) {
    forall j :: 0 <= j < k ==> GoesOn(Before(w, target, env, j), env, j)
  }

  /** Some attempt before `k` found its target unavailable. */
  ghost predicate MovedBefore(w: World, target: string, env: Env, k: nat) {
    exists j :: 0 <= j < k && env.invoke(j, Before(w, target, env, j).target) == Unavailable
  }

  lemma {:induction false} CallReaches(w: World, target: string, env: Env, k: nat)
    requires k <= RETRIES && Reaches(w, target, env, k)
    ensures var at := Before(w, target, env, k);
            Retry(w, target, env) == RetryFrom(at.world, at.target, MovedBefore(w, target, env, k), k, RETRIES, env)
  {
    if k > 0 {
      var last := Before(w, target, env, k - 1);
      CallReaches(w, target, env, k - 1);
      assert GoesOn(last, env, k - 1);
      assert MovedBefore(w, target, env, k) <==>
             MovedBefore(w, target, env, k - 1) || env.invoke(k - 1, last.target) == Unavailable;
    }
  }

  lemma {:induction false} EndReached(w: World, target: string, env: Env, k: nat) returns (i: nat)
    requires k <= RETRIES && Reaches(w, target, env, k)
    ensures k <= i <= RETRIES && Reaches(w, target, env, i)
    ensures i < RETRIES ==> !GoesOn(Before(w, target, env, i), env, i)
    decreases RETRIES - k
  {
    if k == RETRIES || !GoesOn(Before(w, target, env, k), env, k) {
      i := k;
    } else {
      i := EndReached(w, target, env, k + 1);
    }
  }

  /** The event at an attempt that ends a call there, and how it ends. */
  ghost predicate EndsBy(at: Stand, env: Env, i: nat, moved: bool, end: (World, CallResult)) {
    match env.invoke(i, at.target)
    case OtherError => false
    case Succeeds =>
      var filed := moved && ParseTarget(at.target).Parsed?;
      end == (if filed then at.world.(conns := at.world.conns[ParseTarget(at.target).service := Conn(at.target)])
              else at.world, Returned(filed))
    case Unavailable =>
      if ParseTarget(at.target).Malformed? then end == (at.world, BadTarget)
      else
        && end.0 == Moved(at, env, i).world
        && end.1 == match AnswerAt(at, env, i)
                    case Failed(_) => LookupFailed
                    case Panicked => CallPanicked
                    case Found(_, _) => RedialFailed
  }

  /**
   * Every call goes through some attempts that fail and let it go on, and then ends: after the last
   * attempt, or by what happens at the attempt it has reached. It files exactly if an earlier target was
   * unavailable, whatever errors came between.
   */
  lemma {:induction false} CallEnds(w: World, target: string, env: Env) returns (i: nat)
    ensures i <= RETRIES && Reaches(w, target, env, i)
    ensures i < RETRIES ==> !GoesOn(Before(w, target, env, i), env, i)
    ensures if i == RETRIES then Retry(w, target, env) == (Before(w, target, env, i).world, MaxRetries)
            else EndsBy(Before(w, target, env, i), env, i, MovedBefore(w, target, env, i), Retry(w, target, env))
  {
    i := EndReached(w, target, env, 0);
    CallReaches(w, target, env, i);
  }

  /** The cache that the lookup after an attempt consults. */
  function CacheAt(at: Stand, env: Env, i: nat): Cache {
    ServeAll(at.world.cache, env.others(i))
  }

  /**
   * Which event causes which end. A call gives up on its lookup exactly when the cache does not answer and
   * there is no client or the listing fails; it faults exactly when the listing lacks the service; it
   * fails to redial only when the lookup found a namespace and the dial there fails.
   */
  lemma {:induction false} CauseOfEnd(w: World, target: string, env: Env) returns (i: nat)
    requires forall k :: env.list(k).Services? ==> Distinct(env.list(k).items)
    ensures i <= RETRIES && Reaches(w, target, env, i)
    ensures var at := Before(w, target, env, i);
            var result := Retry(w, target, env).1;
            var parsed := ParseTarget(at.target);
            var gone := i < RETRIES && env.invoke(i, at.target) == Unavailable;
            var relists := gone && parsed.Parsed?
                           && MustRelist(CacheAt(at, env, i), parsed.service, parsed.namespace);
            && (result.MaxRetries? <==> i == RETRIES)
            && (result.Returned? <==> i < RETRIES && env.invoke(i, at.target) == Succeeds)
            && (result.BadTarget? <==> gone && parsed.Malformed?)
            && (result.LookupFailed? <==> relists && (env.list(i).NoClient? || env.list(i).ListFailed?))
            && (result.CallPanicked? <==> relists && env.list(i).Services?
                                          && forall n :: Item(parsed.service, n) !in env.list(i).items)
            && (result.RedialFailed? <==> gone && parsed.Parsed? && AnswerAt(at, env, i).Found?
                                          && !env.dialOk(i, Moved(at, env, i).target))
  {
    i := CallEnds(w, target, env);
    var at := Before(w, target, env, i);
    if i < RETRIES && env.invoke(i, at.target) == Unavailable && ParseTarget(at.target).Parsed? {
      var Parsed(service, namespace) := ParseTarget(at.target);
      LookupFailsExactly(CacheAt(at, env, i), service, namespace, env.list(i));
      LookupOutcome(CacheAt(at, env, i), service, namespace, env.list(i));
    }
  }

  // --- No success strands a service ---

  ghost predicate ProperAnswer(listing: Listing) {
    listing.Services? ==> ProperItems(listing.items)
  }

  /** Whatever is listed around the call, to it or to others, has names without dots. */
  ghost predicate ProperEnv(env: Env) {
    forall k :: ProperAnswer(env.list(k)) && forall q :: q in env.others(k) ==> ProperAnswer(q.listing)
  }

  lemma {:induction false} LookupStaysProper(cache: Cache, service: string, origin: string, listing: Listing)
    requires ProperCache(cache) && ProperAnswer(listing) && DotFree(origin)
    ensures var (cache', answer) := Lookup(cache, service, origin, listing);
            ProperCache(cache') && (answer.Found? ==> DotFree(answer.namespace))
  {
    if listing.Services? {
      LookupKeepsProper(cache, service, origin, listing.items);
    }
    LookupFinds(cache, service, origin, listing);
    if !MustRelist(cache, service, origin) {
      assert ProperEntry(cache, service);
    }
  }

  lemma {:induction false} OthersStayProper(cache: Cache, queries: seq<Query>)
    requires ProperCache(cache) && forall q :: q in queries ==> ProperAnswer(q.listing)
    ensures ProperCache(ServeAll(cache, queries))
  {
    if queries != [] {
      var before, q := queries[..|queries| - 1], queries[|queries| - 1];
      OthersStayProper(cache, before);
      if q.listing.Services? {
        LookupKeepsProper(ServeAll(cache, before), q.service, q.origin, q.listing.items);
      }
    }
  }

  /** Once a call has moved, a success files, whatever happens before it. */
  lemma {:induction false} MovedCallsFile(w: World, service: string, n: string, i: nat, env: Env)
    requires ProperCache(w.cache) && ProperEnv(env) && DotFree(service) && DotFree(n)
    ensures RetryFrom(w, Target(service, n), true, i, RETRIES, env).1 != Returned(false)
    decreases RETRIES - i
  {
    if i < RETRIES {
      var target := Target(service, n);
      TargetRoundTrip(service, n);
      match env.invoke(i, target)
      case Succeeds =>
      case OtherError => MovedCallsFile(w, service, n, i + 1, env);
      case Unavailable =>
        OthersStayProper(w.cache, env.others(i));
        var cache := ServeAll(w.cache, env.others(i));
        LookupStaysProper(cache, service, n, env.list(i));
        var (cache', answer) := Lookup(cache, service, n, env.list(i));
        if answer.Found? {
          var w' := w.(cache := cache', namespaces := w.namespaces[service := answer.namespace]);
          MovedCallsFile(w', service, answer.namespace, i + 1, env);
        }
    }
  }

  lemma {:induction false} UnfiledSuccessQuiet(w: World, target: string, i: nat, env: Env)
    requires ProperCache(w.cache) && ProperEnv(env)
    ensures var (w', result) := RetryFrom(w, target, false, i, RETRIES, env);
            result == Returned(false) ==> w' == w
    decreases RETRIES - i
  {
    if i < RETRIES && env.invoke(i, target) == OtherError {
      UnfiledSuccessQuiet(w, target, i + 1, env);
    } else if i < RETRIES && env.invoke(i, target) == Unavailable && ParseTarget(target).Parsed? {
      var Parsed(service, namespace) := ParseTarget(target);
      ParseTargetAccepts(target, service, namespace);
      OthersStayProper(w.cache, env.others(i));
      var cache := ServeAll(w.cache, env.others(i));
      LookupStaysProper(cache, service, namespace, env.list(i));
      var (cache', answer) := Lookup(cache, service, namespace, env.list(i));
      if answer.Found? {
        var w' := w.(cache := cache', namespaces := w.namespaces[service := answer.namespace]);
        MovedCallsFile(w', service, answer.namespace, i + 1, env);
      }
    }
  }

  /**
   * No call that succeeds strands its service, over all sequences of successes, unavailability and other
   * errors, and whatever is listed meanwhile: it files the connection it succeeded on, or it has changed
   * nothing at all.
   */
  lemma {:induction false} SuccessNeverStrands(w: World, target: string, env: Env)
    requires ProperCache(w.cache) && ProperEnv(env)
    ensures Retry(w, target, env).1 == Returned(false) ==> Retry(w, target, env).0 == w
    ensures Retry(w, target, env).1.Returned? ==> !Strands(w, target, env)
  {
    UnfiledSuccessQuiet(w, target, 0, env);
  }

  /** An error between the failover and the success does not make the call forget that it moved. */
  lemma {:induction false} ErrorAfterMoving(env: Env)
    requires forall t ::
               env.invoke(0, t) == Unavailable && env.invoke(1, t) == OtherError && env.invoke(2, t) == Succeeds
    requires env.others(0) == [] && env.list(0) == Services([Item("s", "b")]) && forall t :: env.dialOk(0, t)
    ensures var (w', result) :=
              Retry(World(map[], map["s" := "a"], map["s" := Conn(Target("s", "a"))]), Target("s", "a"), env);
            && result == Returned(true)
            && w'.namespaces == map["s" := "b"] && w'.conns == map["s" := Conn(Target("s", "b"))]
  {
    var w, items := World(map[], map["s" := "a"], map["s" := Conn(Target("s", "a"))]), [Item("s", "b")];
    var (cache', answer) := Lookup(map[], "s", "a", Services(items));
    assert items[..0] == [] && NamespacesOf(items[..0], "s") == [];
    assert NamespacesOf(items, "s") == ["b"];
    LookupFinds(map[], "s", "a", Services(items));
    TargetRoundTrip("s", "a");
    TargetRoundTrip("s", "b");
    var w1 := w.(cache := cache', namespaces := w.namespaces["s" := "b"]);
    assert env.dialOk(0, Target("s", "b"));
    assert RetryFrom(w, Target("s", "a"), false, 0, RETRIES, env) ==
           RetryFrom(w1, Target("s", "b"), true, 1, RETRIES, env);
    assert RetryFrom(w1, Target("s", "b"), true, 1, RETRIES, env) ==
           RetryFrom(w1, Target("s", "b"), true, 2, RETRIES, env);
  }
}
