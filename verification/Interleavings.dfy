/**
 * Connections and bindings when nothing is atomic: any number of calls and connects are under way at
 * once, and the configuration handler drops connections and stores bindings in two steps of their own.
 */
module Interleavings {
  import opened Targets
  import opened ConnStorage
  import opened GrpcCallConfig

  /** A connection that a call or a connect has dialed and not yet filed. */
  datatype Dialed = Dialed(service: string, conn: Conn)

  datatype State = State(bindings: Bindings, conns: map<string, Conn>, pending: map<nat, Dialed>)

  /**
   * `Bind` is a retry or a first connect that stores what the lookup answered and dials it; `DialBound`
   * a connect to the namespace bound already. A retry that succeeds files over what is there, a
   * connect only where nothing is. `Invalidate` and `Store` are the two halves of a configuration change.
   */
  datatype Event =
    | Bind(call: nat, service: string, namespace: string)
    | DialBound(call: nat, service: string)
    | File(call: nat)
    | FileIfAbsent(call: nat)
    | GiveUp(call: nat)
    | Invalidate(services: set<string>)
    | Store(bindings: Bindings)

  function Next(s: State, e: Event): State {
    match e
    case Bind(call, service, namespace) =>
      var dialed := Dialed(service, Conn(Target(service, namespace)));
      s.(bindings := s.bindings[service := namespace], pending := s.pending[call := dialed])
    case DialBound(call, service) =>
      if service !in s.bindings || s.bindings[service] == "" then s
      else s.(pending := s.pending[call := Dialed(service, Conn(Target(service, s.bindings[service])))])
    case File(call) =>
      if call !in s.pending then s
      else
        var dialed := s.pending[call];
        s.(conns := s.conns[dialed.service := dialed.conn], pending := s.pending - {call})
    case FileIfAbsent(call) =>
      if call !in s.pending then s
      else
        var dialed := s.pending[call];
        s.(conns := if dialed.service in s.conns then s.conns else s.conns[dialed.service := dialed.conn],
           pending := s.pending - {call})
    case GiveUp(call) => s.(pending := s.pending - {call})
    case Invalidate(services) => s.(conns := s.conns - services)
    case Store(bindings) => s.(bindings := s.bindings + bindings)
  }

  function Run(s: State, events: seq<Event>): State {
    if events == [] then s else Next(Run(s, events[..|events| - 1]), events[|events| - 1])
  }

  // --- Which steps make and mend a stale connection ---

  /** The connection goes to the namespace the service is bound to. */
  predicate ToBinding(s: State, service: string, conn: Conn) {
    service in s.bindings && conn == Conn(Target(service, s.bindings[service]))
  }

  predicate AgreesAt(s: State, service: string) {
    service in s.conns ==> ToBinding(s, service, s.conns[service])
  }

  /** The namespace an event gives to a service. */
  predicate Gives(e: Event, service: string, namespace: string) {
    || (e.Bind? && e.service == service && e.namespace == namespace)
    || (e.Store? && service in e.bindings && e.bindings[service] == namespace)
  }

  predicate Rebinds(s: State, e: Event, service: string) {
    || (e.Bind? && e.service == service && !(service in s.bindings && s.bindings[service] == e.namespace))
    || (e.Store? && service in e.bindings
        && !(service in s.bindings && s.bindings[service] == e.bindings[service]))
  }

  /** The event files a pending dial of the service. */
  predicate Files(s: State, e: Event, service: string) {
    && (e.File? || e.FileIfAbsent?)
    && e.call in s.pending && s.pending[e.call].service == service
    && (e.FileIfAbsent? ==> service !in s.conns)
  }

  /**
   * Which step spoils agreement, exactly: giving a service with a filed connection another namespace,
   * or filing a dial that no longer goes to the namespace bound now.
   */
  lemma {:induction false} BreaksExactly(s: State, e: Event, service: string)
    requires AgreesAt(s, service)
    ensures !AgreesAt(Next(s, e), service) <==>
            || (service in s.conns && Rebinds(s, e, service))
            || (Files(s, e, service) && !ToBinding(s, service, s.pending[e.call].conn))
  {
    if service in s.bindings {
      if e.Bind? && e.service == service {
        TargetInjective(service, s.bindings[service], e.namespace);
      } else if e.Store? && service in e.bindings {
        TargetInjective(service, s.bindings[service], e.bindings[service]);
      }
    }
  }

  // --- Schedules that keep agreement ---

  predicate Pending(s: State, service: string) {
    exists call :: call in s.pending && s.pending[call].service == service
  }

  /** The event ends a dial of the service without filing it. */
  predicate Drops(s: State, e: Event, service: string) {
    && (e.GiveUp? || e.FileIfAbsent?)
    && e.call in s.pending && s.pending[e.call].service == service
    && (e.FileIfAbsent? ==> service in s.conns)
  }

  /**
   * What a schedule has to see to before each step, for one service. A call keeps to its service and
   * rebinds it while no other dial of it is pending; a configuration value that rebinds it finds no
   * dial of it pending and no connection filed, so nothing was filed since its invalidation; and a dial
   * is dropped only where nothing is filed or what is filed goes to the same target.
   */
  ghost predicate Orderly(s: State, e: Event, service: string) {
    && ((e.Bind? || e.DialBound?) && e.call in s.pending ==> s.pending[e.call].service == e.service)
    && (e.Bind? && e.service == service ==>
          forall call :: call in s.pending && s.pending[call].service == service ==> call == e.call)
    && (e.Store? && Rebinds(s, e, service) ==> service !in s.conns && !Pending(s, service))
    && (Drops(s, e, service) && service in s.conns ==> s.conns[service] == s.pending[e.call].conn)
  }

  ghost predicate OrderlyRun(s: State, events: seq<Event>, service: string) {
    events == [] ||
    (var before, e := events[..|events| - 1], events[|events| - 1];
     OrderlyRun(s, before, service) && Orderly(Run(s, before), e, service))
  }

  /** All pending dials go to the present binding, and a stale connection has one of them coming. */
  ghost predicate InOrder(s: State, service: string) {
    && (forall call :: call in s.pending && s.pending[call].service == service ==>
          ToBinding(s, service, s.pending[call].conn))
    && (AgreesAt(s, service) || Pending(s, service))
  }

  lemma {:induction false} OrderlyStep(s: State, e: Event, service: string)
    requires InOrder(s, service) && Orderly(s, e, service)
    ensures InOrder(Next(s, e), service)
  {
    var s' := Next(s, e);
    if !AgreesAt(s', service) {
      if Pending(s, service) {
        var call :| call in s.pending && s.pending[call].service == service;
        if call in s'.pending {
          assert s'.pending[call].service == service;
        } else {
          assert ToBinding(s, service, s.pending[call].conn);
        }
      } else if e.Bind? && e.service == service {
        assert s'.pending[e.call].service == service;
      } else {
        BreaksExactly(s, e, service);
        assert false;
      }
    }
  }

  lemma {:induction false} OrderlyRunInOrder(s: State, events: seq<Event>, service: string)
    requires InOrder(s, service) && OrderlyRun(s, events, service)
    ensures InOrder(Run(s, events), service)
  {
    if events != [] {
      var before, e := events[..|events| - 1], events[|events| - 1];
      OrderlyRunInOrder(s, before, service);
      OrderlyStep(Run(s, before), e, service);
    }
  }

  /**
   * Orderly schedules keep agreement: however the steps of all calls, connects and configuration
   * changes interleave, a service has no stale connection whenever no dial of it is under way, and
   * filing one always leaves it agreeing.
   */
  lemma {:induction false} OrderlyRunsAgree(s: State, events: seq<Event>, service: string)
    requires InOrder(s, service) && OrderlyRun(s, events, service)
    ensures var end := Run(s, events);
            && (!Pending(end, service) ==> AgreesAt(end, service))
            && (forall e :: Files(end, e, service) ==> AgreesAt(Next(end, e), service))
  {
    OrderlyRunInOrder(s, events, service);
    var end := Run(s, events);
    forall e | Files(end, e, service)
      ensures AgreesAt(Next(end, e), service)
    {
      assert ToBinding(end, service, end.pending[e.call].conn);
    }
  }

  // --- In every interleaving ---

  /** Some event gave the service the namespace that the connection goes to. */
  ghost predicate Given(events: seq<Event>, service: string, conn: Conn) {
    exists k, namespace ::
      0 <= k < |events| && Gives(events[k], service, namespace) && conn == Conn(Target(service, namespace))
  }

  lemma {:induction false} GivenLater(events: seq<Event>, e: Event, service: string, conn: Conn)
    requires Given(events, service, conn)
    ensures Given(events + [e], service, conn)
  {
    var k, namespace :|
      0 <= k < |events| && Gives(events[k], service, namespace) && conn == Conn(Target(service, namespace));
    assert (events + [e])[k] == events[k];
  }

  lemma {:induction false} GivenNow(events: seq<Event>, e: Event, service: string, namespace: string)
    requires Gives(e, service, namespace)
    ensures Given(events + [e], service, Conn(Target(service, namespace)))
  {
    assert (events + [e])[|events|] == e;
  }

  ghost predicate AllGiven(events: seq<Event>, s: State) {
    && (forall service :: service in s.bindings ==>
          Given(events, service, Conn(Target(service, s.bindings[service]))))
    && (forall service :: service in s.conns ==> Given(events, service, s.conns[service]))
    && (forall call :: call in s.pending ==> Given(events, s.pending[call].service, s.pending[call].conn))
  }

  lemma {:induction false} StepAllGiven(events: seq<Event>, s: State, e: Event)
    requires AllGiven(events, s)
    ensures AllGiven(events + [e], Next(s, e))
  {
    var s' := Next(s, e);
    forall service | service in s'.bindings
      ensures Given(events + [e], service, Conn(Target(service, s'.bindings[service])))
    {
      if Gives(e, service, s'.bindings[service]) {
        GivenNow(events, e, service, s'.bindings[service]);
      } else {
        GivenLater(events, e, service, Conn(Target(service, s.bindings[service])));
      }
    }
    forall service | service in s'.conns
      ensures Given(events + [e], service, s'.conns[service])
    {
      GivenLater(events, e, service, s'.conns[service]);
    }
    forall call | call in s'.pending
      ensures Given(events + [e], s'.pending[call].service, s'.pending[call].conn)
    {
      if e.Bind? && e.call == call {
        GivenNow(events, e, e.service, e.namespace);
      } else {
        GivenLater(events, e, s'.pending[call].service, s'.pending[call].conn);
      }
    }
  }

  /** Without any order at all, a filed connection still goes to some namespace the run gave its service. */
  lemma {:induction false} FiledWasGiven(events: seq<Event>)
    ensures AllGiven(events, Run(State(map[], map[], map[]), events))
  {
    if events != [] {
      var before, e := events[..|events| - 1], events[|events| - 1];
      FiledWasGiven(before);
      StepAllGiven(before, Run(State(map[], map[], map[]), before), e);
      assert before + [e] == events;
    }
  }

  /** Two retries of one service can both succeed and leave a stale connection: the first to bind files last. */
  lemma {:induction false} BothSucceedOneStale()
    ensures var events := [Bind(0, "s", "a"), Bind(1, "s", "b"), File(1), File(0)];
            var end := Run(State(map[], map[], map[]), events);
            && end.pending == map[] && end.bindings == map["s" := "b"]
            && end.conns == map["s" := Conn(Target("s", "a"))]
            && !AgreesAt(end, "s")
  {
    var start := State(map[], map[], map[]);
    var e1, e2, e3, e4 := Bind(0, "s", "a"), Bind(1, "s", "b"), File(1), File(0);
    assert [e1, e2, e3, e4][..3] == [e1, e2, e3] && [e1, e2, e3][..2] == [e1, e2];
    assert [e1, e2][..1] == [e1] && [e1][..0] == [];
    var s1 := Next(start, e1);
    var s2 := Next(s1, e2);
    var s3 := Next(s2, e3);
    assert Run(start, [e1]) == s1 && Run(start, [e1, e2]) == s2 && Run(start, [e1, e2, e3]) == s3;
    assert s2.pending[0] == Dialed("s", Conn(Target("s", "a")));
    assert Next(s3, e4).pending == map[];
    TargetInjective("s", "a", "b");
  }

  /** So can a connect whose dial is filed between the two halves of a configuration change. */
  lemma {:induction false} FiledBetweenTheHalves()
    ensures var start := State(map["s" := "a"], map[], map[]);
            var events := [DialBound(0, "s"), Invalidate({"s"}), FileIfAbsent(0), Store(map["s" := "b"])];
            !AgreesAt(Run(start, events), "s")
  {
    var start := State(map["s" := "a"], map[], map[]);
    var e1, e2, e3, e4 := DialBound(0, "s"), Invalidate({"s"}), FileIfAbsent(0), Store(map["s" := "b"]);
    assert [e1, e2, e3, e4][..3] == [e1, e2, e3] && [e1, e2, e3][..2] == [e1, e2];
    assert [e1, e2][..1] == [e1] && [e1][..0] == [];
    assert Run(start, [e1]) == Next(start, e1);
    assert Run(start, [e1, e2]) == Next(Next(start, e1), e2);
    assert Run(start, [e1, e2, e3]) == Next(Next(Next(start, e1), e2), e3);
    TargetInjective("s", "a", "b");
  }
}
