/**
 * How soon a retried call reaches a healthy namespace when the cluster's listing holds still: the
 * listed namespaces serve, all others are unavailable, and dialing works.
 */
module Failover {
  import opened Wrappers
  import opened Targets
  import opened NamespaceCache
  import opened ConnStorage
  import opened GrpcClient

  predicate Serves(items: seq<Item>, service: string, target: string) {
    exists n :: n in NamespacesOf(items, service) && target == Target(service, n)
  }

  ghost predicate OthersSee(queries: seq<Query>, items: seq<Item>) {
    forall q :: q in queries ==> q.listing == Services(items)
  }

  ghost predicate SteadyAt(env: Env, service: string, items: seq<Item>, i: nat, target: string) {
    && env.invoke(i, target) == (if Serves(items, service, target) then Succeeds else Unavailable)
    && env.list(i) == Services(items)
    && OthersSee(env.others(i), items)
    && forall target' :: env.dialOk(i, target')
  }

  /** The environment a service with listing `items` offers to one call. */
  ghost predicate Steady(env: Env, service: string, items: seq<Item>) {
    forall i, target :: SteadyAt(env, service, items, i, target)
  }

  /** Kubernetes lists an object once, and its names have no dots. */
  ghost predicate ProperListing(items: seq<Item>, service: string) {
    && Distinct(items) && NamespacesOf(items, service) != []
    && forall n :: n in NamespacesOf(items, service) ==> DotFree(n)
  }

  ghost predicate ProperEntry(cache: Cache, service: string) {
    service in cache ==> forall n :: n in cache[service] ==> DotFree(n)
  }

  lemma {:induction false} ServesItsNamespaces(items: seq<Item>, service: string, n: string)
    ensures Serves(items, service, Target(service, n)) <==> n in NamespacesOf(items, service)
  {
    if Serves(items, service, Target(service, n)) {
      var m :| m in NamespacesOf(items, service) && Target(service, n) == Target(service, m);
      TargetInjective(service, n, m);
    }
  }

  lemma {:induction false} ProperAfterLookup(
    cache: Cache, service: string, service': string, origin': string, items: seq<Item>)
    requires ProperListing(items, service) && ProperEntry(cache, service)
    ensures ProperEntry(Lookup(cache, service', origin', Services(items)).0, service)
  {
    if service' == service {
      LookupRefreshes(cache, service, origin', items);
      var cache' := Lookup(cache, service, origin', Services(items)).0;
      if Fresh(cache', service, items) {
        FreshNonEmpty(cache', service, items);
      }
    }
  }

  lemma {:induction false} OthersKeep(
    cache: Cache, service: string, mine: string, queries: seq<Query>, items: seq<Item>)
    requires OthersSee(queries, items) && ProperListing(items, service) && ProperEntry(cache, service)
    ensures ProperEntry(ServeAll(cache, queries), service)
    ensures Near(cache, service, mine, items) ==> Near(ServeAll(cache, queries), service, mine, items)
  {
    if queries != [] {
      var n := |queries| - 1;
      OthersKeep(cache, service, mine, queries[..n], items);
      var before := ServeAll(cache, queries[..n]);
      assert queries[n].listing == Services(items);
      OtherLookupKeeps(before, service, mine, queries[n].service, queries[n].origin, items);
      ProperAfterLookup(before, service, queries[n].service, queries[n].origin, items);
    }
  }

  /** The outcome a caller hopes for: the call returned and its new connection is on file under its service. */
  ghost predicate FailedOver(w: World, service: string, items: seq<Item>, end: (World, CallResult)) {
    var (w', result) := end;
    && result == Returned(true)
    && service in w'.namespaces
    && var n := w'.namespaces[service];
    && n in NamespacesOf(items, service)
    && w'.namespaces == w.namespaces[service := n]
    && w'.conns == w.conns[service := Conn(Target(service, n))]
  }

  /** An attempt on a listed namespace ends the call, filing the connection if it is a new one. */
  lemma {:induction false} AttemptServes(
    w: World, service: string, n: string, changed: bool, i: nat, retries: nat, env: Env, items: seq<Item>)
    requires Steady(env, service, items) && ProperListing(items, service) && DotFree(service)
    requires n in NamespacesOf(items, service) && i < retries
    ensures RetryFrom(w, Target(service, n), changed, i, retries, env) ==
            (if changed then w.(conns := w.conns[service := Conn(Target(service, n))]) else w, Returned(changed))
  {
    ServesItsNamespaces(items, service, n);
    assert SteadyAt(env, service, items, i, Target(service, n));
    TargetRoundTrip(service, n);
  }

  /** An attempt elsewhere moves the call to what the lookup answers, which is near; from near it is listed. */
  lemma {:induction false} AttemptMoves(
    w: World, service: string, n: string, changed: bool, i: nat, retries: nat, env: Env, items: seq<Item>)
    returns (w': World, n': string)
    requires Steady(env, service, items) && ProperListing(items, service) && DotFree(service) && DotFree(n)
    requires ProperEntry(w.cache, service) && n !in NamespacesOf(items, service) && i < retries
    ensures RetryFrom(w, Target(service, n), changed, i, retries, env)
         == RetryFrom(w', Target(service, n'), true, i + 1, retries, env)
    ensures w'.namespaces == w.namespaces[service := n'] && w'.conns == w.conns
    ensures DotFree(n') && ProperEntry(w'.cache, service) && Near(w'.cache, service, n', items)
    ensures Near(w.cache, service, n, items) ==> n' in NamespacesOf(items, service)
    ensures env.others(i) == [] ==>
              (n' in NamespacesOf(items, service) <==> OneStepSuffices(w.cache, service, n, items))
  {
    ServesItsNamespaces(items, service, n);
    assert SteadyAt(env, service, items, i, Target(service, n));
    TargetRoundTrip(service, n);
    var cache := ServeAll(w.cache, env.others(i));
    OthersKeep(w.cache, service, n, env.others(i), items);
    MyLookupApproaches(cache, service, n, items);
    ProperAfterLookup(cache, service, service, n, items);
    OneStepExactly(cache, service, n, items);
    var (cache', answer) := Lookup(cache, service, n, env.list(i));
    n' := answer.namespace;
    w' := w.(cache := cache', namespaces := w.namespaces[service := n']);
    assert env.dialOk(i, Target(service, n'));
  }

  /** From near, at most one more attempt is wasted. */
  lemma {:induction false} FailoverFromNear(
    w: World, service: string, n: string, i: nat, retries: nat, env: Env, items: seq<Item>)
    requires Steady(env, service, items) && ProperListing(items, service) && DotFree(service) && DotFree(n)
    requires ProperEntry(w.cache, service) && Near(w.cache, service, n, items) && i + 1 < retries
    requires service in w.namespaces && w.namespaces[service] == n
    ensures FailedOver(w, service, items, RetryFrom(w, Target(service, n), true, i, retries, env))
  {
    if n in NamespacesOf(items, service) {
      AttemptServes(w, service, n, true, i, retries, env, items);
      assert w.namespaces == w.namespaces[service := n];
    } else {
      var w', n' := AttemptMoves(w, service, n, true, i, retries, env, items);
      AttemptServes(w', service, n', true, i + 1, retries, env, items);
    }
  }

  /** A failover of a world that a first attempt has moved is a failover of the world before. */
  lemma {:induction false} FailedOverSince(
    w: World, service: string, n: string, items: seq<Item>, w1: World, end: (World, CallResult))
    requires w1.namespaces == w.namespaces[service := n] && w1.conns == w.conns
    requires FailedOver(w1, service, items, end)
    ensures FailedOver(w, service, items, end)
  {
    var n' := end.0.namespaces[service];
    assert w.namespaces[service := n][service := n'] == w.namespaces[service := n'];
  }

  /**
   * Three attempts are always enough: from every target of the service and every cache left over from
   * earlier listings, and whatever other callers look up between the attempts, the call returns. If the first
   * attempt served, nothing changed; otherwise the service is bound to a listed namespace and its
   * filed connection is the one dialed there.
   */
  lemma {:induction false} FailoverBound(w: World, service: string, n: string, env: Env, items: seq<Item>)
    requires Steady(env, service, items) && ProperListing(items, service) && DotFree(service) && DotFree(n)
    requires ProperEntry(w.cache, service)
    ensures var end := Retry(w, Target(service, n), env);
            if n in NamespacesOf(items, service) then end == (w, Returned(false))
            else FailedOver(w, service, items, end)
  {
    if n in NamespacesOf(items, service) {
      AttemptServes(w, service, n, false, 0, RETRIES, env, items);
    } else {
      var w1, n1 := AttemptMoves(w, service, n, false, 0, RETRIES, env, items);
      FailoverFromNear(w1, service, n1, 1, RETRIES, env, items);
      FailedOverSince(w, service, n1, items, w1, RetryFrom(w1, Target(service, n1), true, 1, RETRIES, env));
    }
  }

  /** With one namespace listed, a call whose first attempt failed ends on exactly that one. */
  lemma {:induction false} FailoverToTheOnly(
    w: World, service: string, n: string, only: string, env: Env, items: seq<Item>)
    requires Steady(env, service, items) && ProperListing(items, service) && DotFree(service) && DotFree(n)
    requires ProperEntry(w.cache, service) && NamespacesOf(items, service) == [only] && n != only
    ensures var (w', result) := Retry(w, Target(service, n), env);
            && result == Returned(true)
            && w'.namespaces == w.namespaces[service := only]
            && w'.conns == w.conns[service := Conn(Target(service, only))]
  {
    FailoverBound(w, service, n, env, items);
  }

  /**
   * Two attempts would do exactly when the first lookup already names a listed namespace: the target is
   * listed, or the cache is not consulted, or the head of its entry is still listed. (No other caller
   * meanwhile.) A stale entry that misses the target and starts with a gone namespace defeats two.
   */
  lemma {:induction false} TwoAttemptsExactly(w: World, service: string, n: string, env: Env, items: seq<Item>)
    requires Steady(env, service, items) && ProperListing(items, service) && DotFree(service) && DotFree(n)
    requires ProperEntry(w.cache, service) && env.others(0) == []
    ensures var result := RetryFrom(w, Target(service, n), false, 0, 2, env).1;
            result.Returned? <==> n in NamespacesOf(items, service) || OneStepSuffices(w.cache, service, n, items)
  {
    var listed := NamespacesOf(items, service);
    if n in listed {
      AttemptServes(w, service, n, false, 0, 2, env, items);
    } else {
      var w1, n1 := AttemptMoves(w, service, n, false, 0, 2, env, items);
      if n1 in listed {
        AttemptServes(w1, service, n1, true, 1, 2, env, items);
      } else {
        var w2, n2 := AttemptMoves(w1, service, n1, true, 1, 2, env, items);
        assert RetryFrom(w2, Target(service, n2), true, 2, 2, env).1 == MaxRetries;
      }
    }
  }

  /**
   * Errors other than unavailability neither end a call nor move it: while the target is never
   * unavailable, the call returns exactly if one of the remaining attempts there succeeds, and nothing changes.
   */
  lemma {:induction false} OtherErrorsOnlyRepeat(w: World, target: string, i: nat, retries: nat, env: Env)
    requires i <= retries && forall k :: i <= k < retries ==> env.invoke(k, target) != Unavailable
    ensures RetryFrom(w, target, false, i, retries, env) ==
            (w, if exists k :: i <= k < retries && env.invoke(k, target) == Succeeds then Returned(false)
                else MaxRetries)
    decreases retries - i
  {
    if i < retries && env.invoke(i, target) == OtherError {
      OtherErrorsOnlyRepeat(w, target, i + 1, retries, env);
    }
  }
}
