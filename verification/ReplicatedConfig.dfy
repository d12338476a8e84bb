/**
 * Several processes sharing one configuration value: each rebinds locally and publishes its whole
 * map over whatever is there, and each merges any published version that reaches it, in any order.
 */
module ReplicatedConfig {
  import opened GrpcCallConfig

  /** `log[0]` is the initial value; the last entry is the one a new reader gets. */
  datatype Cluster = Cluster(local: map<nat, Bindings>, log: seq<Bindings>)

  /** A write whose publication the configuration service did not accept stays local. */
  datatype Event =
    | Write(replica: nat, service: string, namespace: string, accepted: bool)
    | Deliver(replica: nat, version: nat)

  function Start(replicas: set<nat>, initial: Bindings): Cluster {
    Cluster(map r | r in replicas :: map[], [initial])
  }

  predicate Enabled(c: Cluster, e: Event) {
    e.replica in c.local && (e.Deliver? ==> e.version < |c.log|)
  }

  function Next(c: Cluster, e: Event): Cluster
    requires Enabled(c, e)
  {
    match e
    case Write(r, service, namespace, accepted) =>
      var bindings := c.local[r][service := namespace];
      Cluster(c.local[r := bindings], if accepted then c.log + [bindings] else c.log)
    case Deliver(r, version) =>
      c.(local := c.local[r := c.local[r] + c.log[version]])
  }

  predicate ValidRun(c: Cluster, events: seq<Event>)
    decreases |events|, 0
  {
    events == [] ||
    (ValidRun(c, events[..|events| - 1]) &&
     Enabled(Run(c, events[..|events| - 1]), events[|events| - 1]))
  }

  function Run(c: Cluster, events: seq<Event>): Cluster
    requires ValidRun(c, events)
    decreases |events|, 1
  {
    if events == [] then c else Next(Run(c, events[..|events| - 1]), events[|events| - 1])
  }

  function Published(c: Cluster): Bindings
    requires c.log != []
  {
    c.log[|c.log| - 1]
  }

  lemma {:induction false} RunShape(c: Cluster, events: seq<Event>)
    requires ValidRun(c, events)
    ensures var c' := Run(c, events);
            && c'.local.Keys == c.local.Keys
            && |c'.log| >= |c.log|
            && c'.log[..|c.log|] == c.log
  {
    if events != [] {
      RunShape(c, events[..|events| - 1]);
    }
  }

  /** No service is ever forgotten by a replica. */
  lemma {:induction false} DomainsGrow(c: Cluster, events: seq<Event>, r: nat)
    requires ValidRun(c, events) && r in c.local
    ensures r in Run(c, events).local && c.local[r].Keys <= Run(c, events).local[r].Keys
  {
    if events != [] {
      DomainsGrow(c, events[..|events| - 1], r);
    }
  }

  // --- Provenance ---

  ghost predicate Written(events: seq<Event>, service: string, namespace: string) {
    exists e :: e in events && e.Write? && e.service == service && e.namespace == namespace
  }

  ghost predicate Traceable(m: Bindings, initial: Bindings, events: seq<Event>) {
    forall s :: s in m ==> (s in initial && initial[s] == m[s]) || Written(events, s, m[s])
  }

  ghost predicate AllTraceable(c: Cluster, initial: Bindings, events: seq<Event>) {
    && (forall r :: r in c.local ==> Traceable(c.local[r], initial, events))
    && (forall v :: 0 <= v < |c.log| ==> Traceable(c.log[v], initial, events))
  }

  lemma {:induction false} TraceableLater(m: Bindings, initial: Bindings, events: seq<Event>, e: Event)
    requires Traceable(m, initial, events)
    ensures Traceable(m, initial, events + [e])
  {
    forall s | s in m && Written(events, s, m[s])
      ensures Written(events + [e], s, m[s])
    {
      var e' :| e' in events && e'.Write? && e'.service == s && e'.namespace == m[s];
      assert e' in events + [e];
    }
  }

  /** Every binding held or ever published was in the initial value or written by somebody. */
  lemma {:induction false} Provenance(replicas: set<nat>, initial: Bindings, events: seq<Event>)
    requires ValidRun(Start(replicas, initial), events)
    ensures AllTraceable(Run(Start(replicas, initial), events), initial, events)
  {
    if events != [] {
      var before, e := events[..|events| - 1], events[|events| - 1];
      assert events == before + [e];
      Provenance(replicas, initial, before);
      var c := Run(Start(replicas, initial), before);
      forall r | r in c.local ensures Traceable(c.local[r], initial, events) {
        TraceableLater(c.local[r], initial, before, e);
      }
      forall v | 0 <= v < |c.log| ensures Traceable(c.log[v], initial, events) {
        TraceableLater(c.log[v], initial, before, e);
      }
      if e.Write? {
        assert e in events;
        assert Written(events, e.service, e.namespace);
      }
    }
  }

  // --- Quiescence ---

  /** Deliveries only, of the value published last. */
  ghost predicate Settling(c: Cluster, events: seq<Event>) {
    c.log != [] && forall e :: e in events ==> e.Deliver? && e.version == |c.log| - 1
  }

  lemma {:induction false} SettlingReaches(c: Cluster, events: seq<Event>, r: nat)
    requires ValidRun(c, events) && Settling(c, events)
    ensures Run(c, events).log == c.log
    ensures r in c.local ==> r in Run(c, events).local
    ensures r in c.local && (exists e :: e in events && e.replica == r) ==>
              forall s :: s in Published(c) ==>
                s in Run(c, events).local[r] && Run(c, events).local[r][s] == Published(c)[s]
  {
    if events != [] {
      var before, e := events[..|events| - 1], events[|events| - 1];
      assert events == before + [e];
      assert e in events;
      SettlingReaches(c, before, r);
    }
  }

  /**
   * Once the writing has stopped and the last value has reached every replica, whatever stale
   * versions arrived earlier and in whatever order, all replicas agree on the services it binds.
   */
  lemma {:induction false} QuiescentAgreement(
    c: Cluster, events: seq<Event>, settle: seq<Event>, r1: nat, r2: nat, s: string)
    requires c.log != [] && ValidRun(c, events)
    requires ValidRun(Run(c, events), settle) && Settling(Run(c, events), settle)
    requires r1 in c.local && r2 in c.local
    requires forall r :: r in c.local ==> exists e :: e in settle && e.replica == r
    requires s in Published(Run(c, events))
    ensures var end := Run(Run(c, events), settle);
            && Published(end) == Published(Run(c, events))
            && r1 in end.local && s in end.local[r1]
            && r2 in end.local && s in end.local[r2]
            && end.local[r1][s] == end.local[r2][s] == Published(end)[s]
  {
    RunShape(c, events);
    SettlingReaches(Run(c, events), settle, r1);
    SettlingReaches(Run(c, events), settle, r2);
  }

  // --- Lost updates ---

  function Fold(initial: Bindings, events: seq<Event>): Bindings {
    if events == [] then initial
    else
      var m := Fold(initial, events[..|events| - 1]);
      var e := events[|events| - 1];
      if e.Write? then m[e.service := e.namespace] else m
  }

  /** The writer has everything that is published. */
  predicate UpToDate(c: Cluster, r: nat)
    requires c.log != [] && r in c.local
  {
    forall s :: s in Published(c) ==> s in c.local[r] && c.local[r][s] == Published(c)[s]
  }

  ghost predicate WritersUpToDate(c: Cluster, events: seq<Event>)
    requires c.log != [] && ValidRun(c, events)
  {
    events == [] ||
    (var before, e := events[..|events| - 1], events[|events| - 1];
     && WritersUpToDate(c, before)
     && (RunShape(c, before); e.Write? ==> e.accepted && UpToDate(Run(c, before), e.replica)))
  }

  /** Along such a run versions only grow, and nobody knows a service that is not published. */
  ghost predicate Monotone(c: Cluster) {
    && c.log != []
    && (forall r :: r in c.local ==> c.local[r].Keys <= Published(c).Keys)
    && (forall v :: 0 <= v < |c.log| ==> c.log[v].Keys <= Published(c).Keys)
  }

  /**
   * If every write was accepted and its writer had merged the value it was about to replace, nothing is
   * lost: what is published is the initial value with all writes applied in order.
   */
  lemma {:induction false} PublishedIsFold(replicas: set<nat>, initial: Bindings, events: seq<Event>)
    requires ValidRun(Start(replicas, initial), events) && WritersUpToDate(Start(replicas, initial), events)
    ensures var c := Run(Start(replicas, initial), events);
            Monotone(c) && Published(c) == Fold(initial, events)
  {
    if events != [] {
      var before, e := events[..|events| - 1], events[|events| - 1];
      PublishedIsFold(replicas, initial, before);
      var c := Run(Start(replicas, initial), before);
      var c' := Next(c, e);
      if e.Write? {
        assert UpToDate(c, e.replica);
        assert c.local[e.replica] == Published(c);
        assert Published(c') == Published(c)[e.service := e.namespace];
        assert forall v :: 0 <= v < |c.log| ==> c'.log[v] == c.log[v];
      } else {
        assert c'.log == c.log;
        assert Published(c') == Published(c);
      }
    }
  }

  /**
   * One write loses nothing and brings back nothing exactly when the writer differs from the published value at
   * most in the service it binds.
   */
  lemma {:induction false} WriteFaithfulExactly(c: Cluster, r: nat, service: string, namespace: string)
    requires c.log != [] && r in c.local
    ensures Published(Next(c, Write(r, service, namespace, true))) == Published(c)[service := namespace] <==>
            c.local[r] - {service} == Published(c) - {service}
  {
    var mine, theirs := c.local[r], Published(c);
    if mine - {service} == theirs - {service} {
      assert mine[service := namespace] == (mine - {service})[service := namespace];
      assert theirs[service := namespace] == (theirs - {service})[service := namespace];
    }
    if mine[service := namespace] == theirs[service := namespace] {
      assert mine - {service} == mine[service := namespace] - {service};
      assert theirs - {service} == theirs[service := namespace] - {service};
    }
  }

  // --- Which runs lose nothing ---

  /** An accepted write's replica differs only where it writes; a refused write repeats what is published. */
  predicate LosesNothing(c: Cluster, e: Event)
    requires c.log != [] && Enabled(c, e) && e.Write?
  {
    if e.accepted then c.local[e.replica] - {e.service} == Published(c) - {e.service}
    else e.service in Published(c) && Published(c)[e.service] == e.namespace
  }

  ghost predicate WritesLoseNothing(c: Cluster, events: seq<Event>)
    requires c.log != [] && ValidRun(c, events)
  {
    events == [] ||
    (var before, e := events[..|events| - 1], events[|events| - 1];
     && WritesLoseNothing(c, before)
     && (RunShape(c, before); e.Write? ==> LosesNothing(Run(c, before), e)))
  }

  /** What is published after the run is what was published before it with all writes applied in order. */
  ghost predicate IsFold(c: Cluster, events: seq<Event>)
    requires c.log != []
  {
    ValidRun(c, events) && (RunShape(c, events); Published(Run(c, events)) == Fold(Published(c), events))
  }

  lemma {:induction false} StepIsFoldExactly(c: Cluster, events: seq<Event>)
    requires c.log != [] && events != [] && ValidRun(c, events) && IsFold(c, events[..|events| - 1])
    ensures var before, e := events[..|events| - 1], events[|events| - 1];
            (RunShape(c, before); IsFold(c, events) <==> (e.Write? ==> LosesNothing(Run(c, before), e)))
  {
    var before, e := events[..|events| - 1], events[|events| - 1];
    RunShape(c, before);
    RunShape(c, events);
    var m := Run(c, before);
    if e.Write? && e.accepted {
      WriteFaithfulExactly(m, e.replica, e.service, e.namespace);
    } else if e.Write? {
      var p := Published(m);
      assert Published(Next(m, e)) == p;
      assert p[e.service := e.namespace][e.service] == e.namespace;
    } else {
      assert Published(Next(m, e)) == Published(m);
    }
  }

  /**
   * Over whole runs, from any cluster: what is published is at all times the fold of the writes so far
   * exactly when each accepted write comes from a replica that differs from the published value at most
   * in the service it binds, and each refused one repeats what is published.
   */
  lemma {:induction false} AlwaysFoldExactly(c: Cluster, events: seq<Event>)
    requires c.log != [] && ValidRun(c, events)
    ensures (forall k :: 0 <= k <= |events| ==> IsFold(c, events[..k])) <==> WritesLoseNothing(c, events)
  {
    assert events[..|events|] == events;
    if events != [] {
      var before := events[..|events| - 1];
      AlwaysFoldExactly(c, before);
      assert forall k :: 0 <= k < |events| ==> before[..k] == events[..k];
      if IsFold(c, before) {
        StepIsFoldExactly(c, events);
      }
      assert before[..|before|] == before;
    }
  }

  /** A process whose first fetch failed knows nothing: its first write replaces all that was published. */
  lemma {:induction false} FailedFetchLosesAll(
    replicas: set<nat>, initial: Bindings, r: nat, service: string, namespace: string)
    requires r in replicas
    ensures var c := Start(replicas, initial);
            Published(c) == initial && Published(Next(c, Write(r, service, namespace, true))) == map[service := namespace]
  {
  }

  /**
   * Without that, a write is lost for good: two replicas bind different services at the same time, and
   * after every delivery one of them still has never heard of the other's service.
   */
  lemma {:induction false} ConcurrentWritesLose()
    ensures var events := [Write(0, "a", "x", true), Write(1, "b", "y", true), Deliver(0, 2), Deliver(1, 2)];
            var start := Start({0, 1}, map[]);
            && ValidRun(start, events)
            && var end := Run(start, events);
               Published(end) == map["b" := "y"] && "a" in end.local[0] && "a" !in end.local[1]
  {
    var start := Start({0, 1}, map[]);
    var e1, e2, e3, e4 := Write(0, "a", "x", true), Write(1, "b", "y", true), Deliver(0, 2), Deliver(1, 2);
    assert [e1, e2, e3, e4][..3] == [e1, e2, e3] && [e1, e2, e3][..2] == [e1, e2] && [e1, e2][..1] == [e1];
    assert [e1][..0] == [];
    assert ValidRun(start, []) && Run(start, []) == start;
    assert ValidRun(start, [e1]) && Run(start, [e1]) == Next(start, e1);
    assert ValidRun(start, [e1, e2]) && Run(start, [e1, e2]) == Next(Next(start, e1), e2);
    assert ValidRun(start, [e1, e2, e3]);
  }
}
