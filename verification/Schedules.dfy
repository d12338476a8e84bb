/**
 * The atomic operations of the client are schedules of the interleaved system's steps: whatever a run of
 * connects, configuration changes and calls does to bindings and connections, some schedule does.
 */
module Schedules {
  import opened Targets
  import opened NamespaceCache
  import opened ConnStorage
  import opened GrpcCallConfig
  import opened GrpcClient
  import A = Agreement
  import opened I = Interleavings

  /** What the interleaved system has of a world, with no dial under way. */
  function Shared(w: World): State {
    State(w.namespaces, w.conns, map[])
  }

  /** The same with a dial of call 0 under way. */
  function Dialing(w: World, service: string, target: string): State {
    State(w.namespaces, w.conns, map[0 := Dialed(service, Conn(target))])
  }

  lemma {:induction false} RunThen(s: State, first: seq<Event>, second: seq<Event>)
    ensures I.Run(s, first + second) == I.Run(I.Run(s, first), second)
  {
    if second == [] {
      assert first + second == first;
    } else {
      var n := |second| - 1;
      RunThen(s, first, second[..n]);
      assert (first + second)[..|first + second| - 1] == first + second[..n];
    }
  }

  lemma {:induction false} RunOne(s: State, e: Event)
    ensures I.Run(s, [e]) == I.Next(s, e)
  {
    assert [e][..0] == [];
  }

  lemma {:induction false} RunTwo(s: State, e: Event, e': Event)
    ensures I.Run(s, [e, e']) == I.Next(I.Next(s, e), e')
  {
    RunOne(s, e);
    assert [e, e'][..1] == [e];
  }

  /** A first dial of an unbound service, and what a connect makes of it. */
  lemma {:induction false} BindAndFile(w: World, service: string, n: string, dialOk: bool)
    requires service !in w.conns
    ensures var w' := w.(namespaces := w.namespaces[service := n]);
            I.Run(Shared(w), [Bind(0, service, n), if dialOk then FileIfAbsent(0) else GiveUp(0)]) ==
            Shared(if dialOk then StoreIfAbsent(w', service, Conn(Target(service, n))) else w')
  {
    RunTwo(Shared(w), Bind(0, service, n), if dialOk then FileIfAbsent(0) else GiveUp(0));
    var s := I.Next(Shared(w), Bind(0, service, n));
    assert s.pending == map[0 := Dialed(service, Conn(Target(service, n)))];
    assert s.pending - {0} == map[];
  }

  lemma {:induction false} ConnectScheduled(w: World, service: string, listing: Listing, dialOk: bool)
    returns (events: seq<Event>)
    ensures I.Run(Shared(w), events) == Shared(GetConnFrom(w, service, listing, dialOk).0)
  {
    events := [];
    if service in w.conns {
      return;
    }
    if service in w.namespaces && w.namespaces[service] != "" {
      if dialOk {
        events := [DialBound(0, service), FileIfAbsent(0)];
        RunTwo(Shared(w), DialBound(0, service), FileIfAbsent(0));
        var s := I.Next(Shared(w), DialBound(0, service));
        assert s.pending - {0} == map[];
      }
      return;
    }
    var (cache', answer) := Lookup(w.cache, service, "", listing);
    if answer.Found? {
      BindAndFile(w.(cache := cache'), service, answer.namespace, dialOk);
      events := [Bind(0, service, answer.namespace), if dialOk then FileIfAbsent(0) else GiveUp(0)];
    }
  }

  lemma {:induction false} ChangeScheduled(w: World, delivered: Bindings)
    ensures I.Run(Shared(w), [Invalidate(ChangedKeys(w.namespaces, delivered)), Store(delivered)]) ==
            Shared(ChangeFrom(w, delivered))
  {
    RunTwo(Shared(w), Invalidate(ChangedKeys(w.namespaces, delivered)), Store(delivered));
  }

  /** How a call that has moved ends: it files its dial or gives it up. */
  lemma {:induction false} DialEnds(w: World, service: string, target: string)
    ensures I.Run(Dialing(w, service, target), [GiveUp(0)]) == Shared(w)
    ensures I.Run(Dialing(w, service, target), [File(0)]) ==
            Shared(w.(conns := w.conns[service := Conn(target)]))
  {
    var s := Dialing(w, service, target);
    RunOne(s, GiveUp(0));
    RunOne(s, File(0));
    assert s.pending - {0} == map[];
  }

  /** A move rebinds and dials, whether or not the call has a dial under way. */
  lemma {:induction false} MoveScheduled(w: World, s: State, service: string, n: string)
    requires s.bindings == w.namespaces && s.conns == w.conns && s.pending.Keys <= {0}
    ensures var w' := w.(namespaces := w.namespaces[service := n]);
            I.Run(s, [Bind(0, service, n)]) == Dialing(w', service, Target(service, n))
  {
    RunOne(s, Bind(0, service, n));
    assert s.pending[0 := Dialed(service, Conn(Target(service, n)))] ==
           map[0 := Dialed(service, Conn(Target(service, n)))];
  }

  /** Where a call stands: at its first target, or with a dial to its target under way. */
  function Standing(w: World, service: string, target: string, changed: bool): State {
    if changed then Dialing(w, service, target) else Shared(w)
  }

  lemma {:induction false} CallScheduled(
    w: World, service: string, target: string, changed: bool, i: nat, retries: nat, env: Env)
    returns (events: seq<Event>)
    requires ParseTarget(target).Parsed? ==> ParseTarget(target).service == service
    ensures I.Run(Standing(w, service, target, changed), events) ==
            Shared(RetryFrom(w, target, changed, i, retries, env).0)
    decreases retries - i
  {
    var ends := if changed then [GiveUp(0)] else [];
    DialEnds(w, service, target);
    events := ends;
    if i < retries {
      match env.invoke(i, target)
      case Succeeds =>
        if changed && ParseTarget(target).Parsed? {
          events := [File(0)];
        }
      case OtherError =>
        events := CallScheduled(w, service, target, changed, i + 1, retries, env);
      case Unavailable =>
        if ParseTarget(target).Parsed? {
          var namespace := ParseTarget(target).namespace;
          var (cache', answer) := Lookup(ServeAll(w.cache, env.others(i)), service, namespace, env.list(i));
          if answer.Found? {
            var n, start := answer.namespace, Standing(w, service, target, changed);
            var w' := w.(cache := cache', namespaces := w.namespaces[service := n]);
            MoveScheduled(w.(cache := cache'), start, service, n);
            TargetRoundTrip(service, n);
            DialEnds(w', service, Target(service, n));
            var rest := [GiveUp(0)];
            if env.dialOk(i, Target(service, n)) {
              rest := CallScheduled(w', service, Target(service, n), true, i + 1, retries, env);
            }
            RunThen(start, [Bind(0, service, n)], rest);
            events := [Bind(0, service, n)] + rest;
          } else {
            DialEnds(w.(cache := cache'), service, target);
          }
        }
    }
  }

  lemma {:induction false} OperationScheduled(w: World, op: A.Op) returns (events: seq<Event>)
    ensures I.Run(Shared(w), events) == Shared(A.Perform(w, op))
  {
    match op
    case Connect(service, listing, dialOk) => events := ConnectScheduled(w, service, listing, dialOk);
    case Change(delivered) =>
      ChangeScheduled(w, delivered);
      events := [Invalidate(ChangedKeys(w.namespaces, delivered)), Store(delivered)];
    case Call(target, env) =>
      var service := if ParseTarget(target).Parsed? then ParseTarget(target).service else "";
      events := CallScheduled(w, service, target, false, 0, RETRIES, env);
  }

  /** Every run of atomic operations is one schedule of the interleaved system. */
  lemma {:induction false} AtomicRunsAreSchedules(w: World, ops: seq<A.Op>) returns (events: seq<Event>)
    ensures I.Run(Shared(w), events) == Shared(A.Run(w, ops).0)
  {
    events := [];
    if ops != [] {
      var before := ops[..|ops| - 1];
      var first := AtomicRunsAreSchedules(w, before);
      var second := OperationScheduled(A.Run(w, before).0, ops[|ops| - 1]);
      RunThen(Shared(w), first, second);
      events := first + second;
    }
  }
}
