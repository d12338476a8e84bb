/**
 * The topic server as a system of interleaved steps. Each subscriber owns a channel of capacity one;
 * publishing, joining and leaving run under one mutex, so each is a single step, and every
 * subscriber's own loop takes from its channel and sends to its stream at its own pace.
 */
module PubSub {
  import opened Wrappers

  datatype Message = Message(topic: string, payload: string)

  /** Where a subscriber's handler stands; `Gone` is after leaving the server, before its last close. */
  datatype Phase = Looping | Sending(msg: Message) | Leaving | Gone | Ended

  /** A subscriber's channel (`buffer`, `open`), its handler, and the history of what it was offered. */
  datatype Subscriber = Subscriber(
    topic: string,
    buffer: seq<Message>,
    open: bool,
    phase: Phase,
    dropped: seq<Message>,
    accepted: seq<Message>,
    sent: seq<Message>,
    failed: seq<Message>)

  datatype Server<Id(==)> = Server(topics: map<string, set<Id>>, subs: map<Id, Subscriber>)

  datatype Event<Id(==)> =
    | Subscribe(id: Id, topic: string)
    | Publish(msg: Message)
    | Receive(id: Id)
    | SendReturned(id: Id, ok: bool)
    | ContextDone(id: Id)
    | Remove(id: Id)
    | CloseAgain(id: Id)

  /** `Fault` is a send on, or a close of, a closed channel. */
  datatype Outcome<Id(==)> = Next(server: Server<Id>) | Disabled | Fault

  // --- Steps ---

  function Listeners<Id>(s: Server<Id>, topic: string): set<Id> {
    if topic in s.topics then s.topics[topic] else {}
  }

  /** The non-blocking send of a publisher. */
  function Offer(u: Subscriber, m: Message): Subscriber {
    if |u.buffer| < 1 then u.(buffer := u.buffer + [m], accepted := u.accepted + [m])
    else u.(dropped := u.dropped + [m])
  }

  function Update<Id>(s: Server<Id>, id: Id, u: Subscriber): Outcome<Id> {
    Next(s.(subs := s.subs[id := u]))
  }

  function Step<Id>(s: Server<Id>, e: Event<Id>): Outcome<Id> {
    match e
    case Subscribe(id, topic) =>
      if id in s.subs then Disabled
      else Next(Server(s.topics[topic := Listeners(s, topic) + {id}],
                       s.subs[id := Subscriber(topic, [], true, Looping, [], [], [], [])]))
    case Publish(m) =>
      if exists id :: id in Listeners(s, m.topic) && id in s.subs && !s.subs[id].open then Fault
      else Next(s.(subs := map id | id in s.subs ::
                     if id in Listeners(s, m.topic) then Offer(s.subs[id], m) else s.subs[id]))
    case Receive(id) =>
      if id !in s.subs || s.subs[id].phase != Looping then Disabled
      else
        var u := s.subs[id];
        if u.buffer != [] then Update(s, id, u.(buffer := u.buffer[1..], phase := Sending(u.buffer[0])))
        else if u.open then Disabled
        else Update(s, id, u.(phase := Leaving))
    case SendReturned(id, ok) =>
      if id !in s.subs || !s.subs[id].phase.Sending? then Disabled
      else
        var u := s.subs[id];
        Update(s, id, if ok then u.(phase := Looping, sent := u.sent + [u.phase.msg])
                      else u.(phase := Leaving, failed := u.failed + [u.phase.msg]))
    case ContextDone(id) =>
      if id !in s.subs || s.subs[id].phase != Looping then Disabled
      else Update(s, id, s.subs[id].(phase := Leaving))
    case Remove(id) =>
      if id !in s.subs || s.subs[id].phase != Leaving then Disabled
      else
        var u := s.subs[id];
        if u.topic !in s.topics then Update(s, id, u.(phase := Gone))
        else if !u.open then Fault
        else Next(Server(s.topics[u.topic := s.topics[u.topic] - {id}],
                         s.subs[id := u.(open := false, phase := Gone)]))
    case CloseAgain(id) =>
      if id !in s.subs || s.subs[id].phase != Gone then Disabled
      else if !s.subs[id].open then Fault
      else Update(s, id, s.subs[id].(open := false, phase := Ended))
  }

  function Run<Id>(trace: seq<Event<Id>>): Outcome<Id> {
    if trace == [] then Next(Server(map[], map[]))
    else match Run(trace[..|trace| - 1])
      case Next(s) => Step(s, trace[|trace| - 1])
      case Disabled => Disabled
      case Fault => Fault
  }

  // --- Channel life cycle ---

  function InFlight(u: Subscriber): seq<Message> {
    if u.phase.Sending? then [u.phase.msg] else []
  }

  predicate Sound<Id>(s: Server<Id>, id: Id, u: Subscriber) {
    && (u.open <==> !u.phase.Gone?) && !u.phase.Ended?
    && u.topic in s.topics
    && (u.open <==> id in s.topics[u.topic])
    && |u.buffer| <= 1
    && u.accepted == u.sent + u.failed + InFlight(u) + u.buffer
    && |u.failed| <= 1 && (u.failed != [] ==> u.phase.Leaving? || u.phase.Gone?)
  }

  ghost predicate Inv<Id>(s: Server<Id>) {
    && (forall id {:trigger Sound(s, id, s.subs[id])} :: id in s.subs ==> Sound(s, id, s.subs[id]))
    && (forall t, id :: t in s.topics && id in s.topics[t] ==> id in s.subs && s.subs[id].topic == t)
  }

  lemma {:induction false} UpdateKeepsInv<Id>(s: Server<Id>, id: Id, u: Subscriber)
    requires Inv(s) && id in s.subs && u.topic == s.subs[id].topic && Sound(s, id, u)
    ensures Inv(s.(subs := s.subs[id := u]))
  {
    var s' := s.(subs := s.subs[id := u]);
    forall other | other in s'.subs
      ensures Sound(s', other, s'.subs[other])
    {
      assert other != id ==> Sound(s, other, s.subs[other]);
    }
  }

  lemma {:induction false} RegistrationKeepsInv<Id>(s: Server<Id>, e: Event<Id>)
    requires Inv(s) && (e.Subscribe? || e.Remove?) && Step(s, e).Next?
    ensures Inv(Step(s, e).server)
  {
    var s' := Step(s, e).server;
    if e.Remove? {
      assert Sound(s, e.id, s.subs[e.id]);
    }
    forall id | id in s'.subs
      ensures Sound(s', id, s'.subs[id])
    {
      if id in s.subs {
        assert Sound(s, id, s.subs[id]);
      }
    }
  }

  lemma {:induction false} PublishKeepsInv<Id>(s: Server<Id>, m: Message)
    requires Inv(s) && Step(s, Publish(m)).Next?
    ensures Inv(Step(s, Publish(m)).server)
  {
    var s' := Step(s, Publish(m)).server;
    forall id | id in s'.subs
      ensures Sound(s', id, s'.subs[id])
    {
      assert Sound(s, id, s.subs[id]);
    }
  }

  /** A publish always goes through, and makes each listener one offer. */
  lemma {:induction false} PublishEffect<Id>(s: Server<Id>, m: Message)
    requires Inv(s)
    ensures Step(s, Publish(m)).Next?
    ensures var s' := Step(s, Publish(m)).server;
            && Inv(s') && s'.topics == s.topics && s'.subs.Keys == s.subs.Keys
            && Listeners(s, m.topic) <= s.subs.Keys
            && (forall id :: id in s.subs ==>
                  && (id in Listeners(s, m.topic) ==> s.subs[id].open)
                  && s'.subs[id] == if id in Listeners(s, m.topic) then Offer(s.subs[id], m) else s.subs[id])
  {
    forall id | id in Listeners(s, m.topic)
      ensures id in s.subs && s.subs[id].open
    {
      assert Sound(s, id, s.subs[id]);
    }
    PublishKeepsInv(s, m);
  }

  lemma {:induction false} StepKeepsInv<Id>(s: Server<Id>, e: Event<Id>)
    requires Inv(s) && Step(s, e).Next?
    ensures Inv(Step(s, e).server)
  {
    if e.Subscribe? || e.Remove? {
      RegistrationKeepsInv(s, e);
    } else if e.Publish? {
      PublishKeepsInv(s, e.msg);
    } else {
      assert Sound(s, e.id, s.subs[e.id]);
      var u := Step(s, e).server.subs[e.id];
      assert Sound(s, e.id, u);
      UpdateKeepsInv(s, e.id, u);
    }
  }

  lemma {:induction false} ReachableInv<Id>(trace: seq<Event<Id>>)
    requires Run(trace).Next?
    ensures Inv(Run(trace).server)
  {
    if trace != [] {
      ReachableInv(trace[..|trace| - 1]);
      StepKeepsInv(Run(trace[..|trace| - 1]).server, trace[|trace| - 1]);
    }
  }

  /**
   * In every interleaving a channel is open while its handler has not left, and listed under its own topic
   * only, until then.
   */
  lemma {:induction false} RegisteredExactlyWhileOpen<Id>(trace: seq<Event<Id>>, id: Id, topic: string)
    requires Run(trace).Next? && id in Run(trace).server.subs
    ensures var s := Run(trace).server;
            var u := s.subs[id];
            && (id in Listeners(s, topic) <==> u.open && topic == u.topic)
            && (u.open <==> !u.phase.Gone?)
  {
    ReachableInv(trace);
    assert Sound(Run(trace).server, id, Run(trace).server.subs[id]);
  }

  /**
   * The only fault any interleaving can reach is the handler's own second close: publishing never
   * sends on a closed channel, leaving never closes one twice, and no loop ever sees its channel closed.
   */
  lemma {:induction false} FaultsExactly<Id>(trace: seq<Event<Id>>, e: Event<Id>)
    requires Run(trace).Next?
    ensures var s := Run(trace).server;
            && (Step(s, e).Fault? <==> e.CloseAgain? && e.id in s.subs && s.subs[e.id].phase.Gone?)
            && (e.Publish? ==> Step(s, e).Next?)
            && (e.Receive? && Step(s, e).Next? ==> Step(s, e).server.subs[e.id].phase.Sending?)
            && (e.Remove? && e.id in s.subs && s.subs[e.id].phase.Leaving? ==> Step(s, e).Next?)
  {
    ReachableInv(trace);
    var s := Run(trace).server;
    if e.Publish? {
      PublishEffect(s, e.msg);
    } else if e.id in s.subs {
      assert Sound(s, e.id, s.subs[e.id]);
    }
  }

  /** How a handler can be made to leave. */
  function WayOut<Id(==)>(phase: Phase, id: Id): seq<Event<Id>> {
    match phase
    case Looping => [ContextDone(id)]
    case Sending(_) => [SendReturned(id, false)]
    case _ => []
  }

  lemma {:induction false} OneMore<Id>(trace: seq<Event<Id>>, e: Event<Id>)
    requires Run(trace).Next?
    ensures Run(trace + [e]) == Step(Run(trace).server, e)
  {
    assert (trace + [e])[..|trace|] == trace;
  }

  /**
   * Every subscription can end from wherever it stands, whatever the others did before, and ending
   * always comes to the second close: leaving goes through, and what the handler does next faults.
   */
  lemma {:induction false} EveryExitFaults<Id>(trace: seq<Event<Id>>, id: Id)
    requires Run(trace).Next? && id in Run(trace).server.subs
    requires !Run(trace).server.subs[id].phase.Gone?
    ensures var left := trace + WayOut(Run(trace).server.subs[id].phase, id) + [Remove(id)];
            && Run(left).Next? && Run(left).server.subs[id].phase.Gone?
            && Run(left + [CloseAgain(id)]).Fault?
  {
    ReachableInv(trace);
    var s := Run(trace).server;
    assert Sound(s, id, s.subs[id]);
    var leaving := trace + WayOut(s.subs[id].phase, id);
    if s.subs[id].phase.Leaving? {
      assert leaving == trace;
    } else {
      OneMore(trace, WayOut(s.subs[id].phase, id)[0]);
    }
    OneMore(leaving, Remove(id));
    OneMore(leaving + [Remove(id)], CloseAgain(id));
  }

  /** A run from a state on. */
  function RunFrom<Id>(s: Server<Id>, trace: seq<Event<Id>>): Outcome<Id> {
    if trace == [] then Next(s)
    else match RunFrom(s, trace[..|trace| - 1])
      case Next(m) => Step(m, trace[|trace| - 1])
      case Disabled => Disabled
      case Fault => Fault
  }

  lemma {:induction false} RunSnoc<Id>(trace: seq<Event<Id>>, e: Event<Id>)
    ensures Run(trace + [e]) == if Run(trace).Next? then Step(Run(trace).server, e) else Run(trace)
  {
    assert (trace + [e])[..|trace|] == trace;
  }

  lemma {:induction false} RunsJoin<Id>(before: seq<Event<Id>>, trace: seq<Event<Id>>)
    requires Run(before).Next?
    ensures Run(before + trace) == RunFrom(Run(before).server, trace)
  {
    if trace == [] {
      assert before + trace == before;
    } else {
      var init, e := trace[..|trace| - 1], trace[|trace| - 1];
      RunsJoin(before, init);
      RunSnoc(before + init, e);
      assert before + trace == (before + init) + [e];
    }
  }

  lemma {:induction false} RunsFollow<Id>(s: Server<Id>, first: seq<Event<Id>>, second: seq<Event<Id>>)
    requires RunFrom(s, first).Next?
    ensures RunFrom(s, first + second) == RunFrom(RunFrom(s, first).server, second)
  {
    if second == [] {
      assert first + second == first;
    } else {
      RunsFollow(s, first, second[..|second| - 1]);
      assert (first + second)[..|first + second| - 1] == first + second[..|second| - 1];
    }
  }

  lemma {:induction false} OneStep<Id>(s: Server<Id>, e: Event<Id>)
    ensures RunFrom(s, [e]) == Step(s, e)
  {
    assert [e][..0] == [];
  }

  // --- Message conservation ---

  /** The topic a subscriber is registered for, read off the trace alone. */
  function TopicOf<Id(==)>(trace: seq<Event<Id>>, id: Id): Option<string> {
    if trace == [] then None
    else
      var e := trace[|trace| - 1];
      if e == Remove(id) then None
      else if e.Subscribe? && e.id == id then Some(e.topic)
      else TopicOf(trace[..|trace| - 1], id)
  }

  /** The messages published to a subscriber's topic while it was registered, read off the trace alone. */
  function Offered<Id(==)>(trace: seq<Event<Id>>, id: Id): seq<Message> {
    if trace == [] then []
    else
      var before, e := trace[..|trace| - 1], trace[|trace| - 1];
      if e.Publish? && TopicOf(before, id) == Some(e.msg.topic)
      then Offered(before, id) + [e.msg] else Offered(before, id)
  }

  /** `whole` is `a` and `b` interleaved, each in its own order. */
  predicate Merge(whole: seq<Message>, a: seq<Message>, b: seq<Message>) {
    if whole == [] then a == [] && b == []
    else
      var n := |whole| - 1;
      || (a != [] && a[|a| - 1] == whole[n] && Merge(whole[..n], a[..|a| - 1], b))
      || (b != [] && b[|b| - 1] == whole[n] && Merge(whole[..n], a, b[..|b| - 1]))
  }

  /** `part` is `whole` with some elements left out. */
  predicate Subsequence(part: seq<Message>, whole: seq<Message>) {
    part == [] ||
    (whole != [] &&
     var n := |whole| - 1;
     || (part[|part| - 1] == whole[n] && Subsequence(part[..|part| - 1], whole[..n]))
     || Subsequence(part, whole[..n]))
  }

  lemma {:induction false} MergeAppend(whole: seq<Message>, a: seq<Message>, b: seq<Message>, m: Message)
    requires Merge(whole, a, b)
    ensures Merge(whole + [m], a + [m], b) && Merge(whole + [m], a, b + [m])
  {
    assert (whole + [m])[..|whole|] == whole;
    assert (a + [m])[..|a|] == a && (b + [m])[..|b|] == b;
  }

  lemma {:induction false} PrefixOfMerge(whole: seq<Message>, a: seq<Message>, b: seq<Message>, k: nat)
    requires Merge(whole, a, b) && k <= |b|
    ensures Subsequence(b[..k], whole)
  {
    if k > 0 {
      var n := |whole| - 1;
      if b != [] && b[|b| - 1] == whole[n] && Merge(whole[..n], a, b[..|b| - 1]) {
        if k == |b| {
          PrefixOfMerge(whole[..n], a, b[..|b| - 1], k - 1);
          assert b[..|b| - 1][..k - 1] == b[..k][..k - 1];
        } else {
          PrefixOfMerge(whole[..n], a, b[..|b| - 1], k);
          assert b[..|b| - 1][..k] == b[..k];
        }
      } else {
        PrefixOfMerge(whole[..n], a[..|a| - 1], b, k);
      }
    }
  }

  lemma {:induction false} MergeWithNothing(whole: seq<Message>, b: seq<Message>)
    requires Merge(whole, [], b)
    ensures whole == b
  {
    if whole != [] {
      MergeWithNothing(whole[..|whole| - 1], b[..|b| - 1]);
      assert whole == whole[..|whole| - 1] + [whole[|whole| - 1]];
      assert b == b[..|b| - 1] + [b[|b| - 1]];
    }
  }

  /** What the trace says about a subscriber is what the server holds. */
  ghost predicate Accounted<Id>(trace: seq<Event<Id>>, s: Server<Id>, id: Id) {
    if id in s.subs then
      && TopicOf(trace, id) == (if s.subs[id].open then Some(s.subs[id].topic) else None)
      && Merge(Offered(trace, id), s.subs[id].dropped, s.subs[id].accepted)
    else TopicOf(trace, id) == None && Offered(trace, id) == []
  }

  lemma {:induction false} TraceFunctionsAppend<Id>(before: seq<Event<Id>>, e: Event<Id>, id: Id)
    ensures TopicOf(before + [e], id) ==
            if e == Remove(id) then None
            else if e.Subscribe? && e.id == id then Some(e.topic)
            else TopicOf(before, id)
    ensures Offered(before + [e], id) ==
            if e.Publish? && TopicOf(before, id) == Some(e.msg.topic) then Offered(before, id) + [e.msg]
            else Offered(before, id)
  {
    assert (before + [e])[..|before|] == before;
  }

  lemma {:induction false} PublishAccounts<Id>(before: seq<Event<Id>>, s: Server<Id>, m: Message, id: Id)
    requires Inv(s) && Accounted(before, s, id) && Step(s, Publish(m)).Next? && id in s.subs
    ensures Accounted(before + [Publish(m)], Step(s, Publish(m)).server, id)
  {
    var u := s.subs[id];
    TraceFunctionsAppend(before, Publish(m), id);
    assert Sound(s, id, u);
    MergeAppend(Offered(before, id), u.dropped, u.accepted, m);
    assert id in Listeners(s, m.topic) <==> u.open && u.topic == m.topic;
    assert Step(s, Publish(m)).server.subs[id] == if id in Listeners(s, m.topic) then Offer(u, m) else u;
  }

  /** Steps other than a publish leave the history of offers alone. */
  lemma {:induction false} QuietStep<Id>(s: Server<Id>, e: Event<Id>, id: Id)
    requires Inv(s) && Step(s, e).Next? && !e.Publish?
    ensures var s' := Step(s, e).server;
            && (id in s'.subs <==> id in s.subs || (e.Subscribe? && e.id == id))
            && (id in s.subs ==>
                  && s'.subs[id].dropped == s.subs[id].dropped && s'.subs[id].accepted == s.subs[id].accepted
                  && s'.subs[id].topic == s.subs[id].topic
                  && s'.subs[id].open == (s.subs[id].open && e != Remove(id)))
            && (e == Remove(id) || (e.Subscribe? && e.id == id) ==> (id in s.subs <==> e.Remove?))
  {
    if id in s.subs {
      assert Sound(s, id, s.subs[id]);
    }
  }

  lemma {:induction false} StepAccounts<Id>(before: seq<Event<Id>>, s: Server<Id>, e: Event<Id>, id: Id)
    requires Inv(s) && Accounted(before, s, id) && Step(s, e).Next?
    ensures Accounted(before + [e], Step(s, e).server, id)
  {
    TraceFunctionsAppend(before, e, id);
    if !e.Publish? {
      QuietStep(s, e, id);
    } else if id in s.subs {
      PublishAccounts(before, s, e.msg, id);
    }
  }

  lemma {:induction false} TraceAccounts<Id>(trace: seq<Event<Id>>, id: Id)
    requires Run(trace).Next?
    ensures Accounted(trace, Run(trace).server, id)
  {
    if trace != [] {
      var before, e := trace[..|trace| - 1], trace[|trace| - 1];
      TraceAccounts(before, id);
      ReachableInv(before);
      StepAccounts(before, Run(before).server, e, id);
      assert before + [e] == trace;
    }
  }

  /**
   * Exact conservation, in every reachable state: what was published to a subscriber's topic while it
   * was registered is an order-preserving merge of what was dropped and what was accepted; what was
   * accepted is what was sent, then at most one failed send, then what is in flight, then at most one buffered message.
   */
  lemma {:induction false} Conservation<Id>(trace: seq<Event<Id>>, id: Id)
    requires Run(trace).Next? && id in Run(trace).server.subs
    ensures var u := Run(trace).server.subs[id];
            && Merge(Offered(trace, id), u.dropped, u.accepted)
            && u.accepted == u.sent + u.failed + InFlight(u) + u.buffer
            && |u.buffer| <= 1
            && |u.failed| <= 1 && (u.failed != [] ==> InFlight(u) == [])
            && Subsequence(u.sent, Offered(trace, id))
  {
    TraceAccounts(trace, id);
    ReachableInv(trace);
    var u := Run(trace).server.subs[id];
    assert Sound(Run(trace).server, id, u);
    PrefixOfMerge(Offered(trace, id), u.dropped, u.accepted, |u.sent|);
    assert u.accepted[..|u.sent|] == u.sent;
  }

  /** How many of the subscriber's sends have returned with that outcome, read off the trace alone. */
  function Returned<Id(==)>(trace: seq<Event<Id>>, id: Id, ok: bool): nat {
    if trace == [] then 0
    else Returned(trace[..|trace| - 1], id, ok) + if trace[|trace| - 1] == SendReturned(id, ok) then 1 else 0
  }

  lemma {:induction false} StepReturns<Id>(s: Server<Id>, e: Event<Id>, id: Id)
    requires Inv(s) && Step(s, e).Next? && id in s.subs
    ensures var s' := Step(s, e).server;
            && id in s'.subs
            && |s'.subs[id].sent| == |s.subs[id].sent| + (if e == SendReturned(id, true) then 1 else 0)
            && |s'.subs[id].failed| == |s.subs[id].failed| + (if e == SendReturned(id, false) then 1 else 0)
  {
  }

  /** What counts as sent is what the stream took, and what counts as failed is what it refused. */
  lemma {:induction false} SendsCounted<Id>(trace: seq<Event<Id>>, id: Id)
    requires Run(trace).Next?
    ensures var s := Run(trace).server;
            if id in s.subs
            then |s.subs[id].sent| == Returned(trace, id, true) && |s.subs[id].failed| == Returned(trace, id, false)
            else Returned(trace, id, true) == 0 && Returned(trace, id, false) == 0
  {
    if trace != [] {
      var before, e := trace[..|trace| - 1], trace[|trace| - 1];
      SendsCounted(before, id);
      ReachableInv(before);
      if id in Run(before).server.subs {
        StepReturns(Run(before).server, e, id);
      }
    }
  }

  /** Each message offered to the subscriber found its buffer empty. */
  ghost predicate AlwaysRoom<Id>(trace: seq<Event<Id>>, id: Id)
    requires Run(trace).Next?
  {
    trace == [] ||
    (var before, e := trace[..|trace| - 1], trace[|trace| - 1];
     && AlwaysRoom(before, id)
     && (e.Publish? && TopicOf(before, id) == Some(e.msg.topic) ==>
           id in Run(before).server.subs && Run(before).server.subs[id].buffer == []))
  }

  /** Nothing is lost on the way into the channel exactly when every publish found it empty. */
  lemma {:induction false} LosslessExactly<Id>(trace: seq<Event<Id>>, id: Id)
    requires Run(trace).Next? && id in Run(trace).server.subs
    ensures AlwaysRoom(trace, id) <==> Run(trace).server.subs[id].accepted == Offered(trace, id)
  {
    RoomMeansNoDrop(trace, id);
    TraceAccounts(trace, id);
    var u := Run(trace).server.subs[id];
    if u.dropped == [] {
      MergeWithNothing(Offered(trace, id), u.accepted);
    } else {
      MergeLength(Offered(trace, id), u.dropped, u.accepted);
    }
  }

  lemma {:induction false} MergeLength(whole: seq<Message>, a: seq<Message>, b: seq<Message>)
    requires Merge(whole, a, b)
    ensures |whole| == |a| + |b|
  {
    if whole != [] {
      var n := |whole| - 1;
      if a != [] && a[|a| - 1] == whole[n] && Merge(whole[..n], a[..|a| - 1], b) {
        MergeLength(whole[..n], a[..|a| - 1], b);
      } else {
        MergeLength(whole[..n], a, b[..|b| - 1]);
      }
    }
  }

  lemma {:induction false} PublishDropsExactly<Id>(before: seq<Event<Id>>, s: Server<Id>, m: Message, id: Id)
    requires Inv(s) && Accounted(before, s, id) && Step(s, Publish(m)).Next? && id in s.subs
    ensures var u' := Step(s, Publish(m)).server.subs[id];
            if TopicOf(before, id) == Some(m.topic) && s.subs[id].buffer != []
            then u'.dropped == s.subs[id].dropped + [m] else u'.dropped == s.subs[id].dropped
  {
    var u := s.subs[id];
    assert Sound(s, id, u);
    assert id in Listeners(s, m.topic) <==> TopicOf(before, id) == Some(m.topic);
    assert Step(s, Publish(m)).server.subs[id] == if id in Listeners(s, m.topic) then Offer(u, m) else u;
  }

  lemma {:induction false} RoomMeansNoDrop<Id>(trace: seq<Event<Id>>, id: Id)
    requires Run(trace).Next?
    ensures AlwaysRoom(trace, id) <==> (id in Run(trace).server.subs ==> Run(trace).server.subs[id].dropped == [])
  {
    if trace != [] {
      var before, e := trace[..|trace| - 1], trace[|trace| - 1];
      RoomMeansNoDrop(before, id);
      TraceAccounts(before, id);
      ReachableInv(before);
      var s := Run(before).server;
      if !e.Publish? {
        QuietStep(s, e, id);
      } else if id in s.subs {
        PublishDropsExactly(before, s, e.msg, id);
      }
    }
  }

  // --- Deliveries, off the trace alone ---

  function Takings<Id(==)>(trace: seq<Event<Id>>, id: Id): nat {
    if trace == [] then 0
    else Takings(trace[..|trace| - 1], id) + if trace[|trace| - 1] == Receive(id) then 1 else 0
  }

  /** The messages that found the channel empty: all that were accepted before had been taken. */
  function AcceptedOf<Id(==)>(trace: seq<Event<Id>>, id: Id): seq<Message> {
    if trace == [] then []
    else
      var before, e := trace[..|trace| - 1], trace[|trace| - 1];
      if e.Publish? && TopicOf(before, id) == Some(e.msg.topic) && |AcceptedOf(before, id)| == Takings(before, id)
      then AcceptedOf(before, id) + [e.msg] else AcceptedOf(before, id)
  }

  /** What left the channel: sent, failed, or in flight. */
  function Taken(u: Subscriber): nat {
    |u.sent| + |u.failed| + |InFlight(u)|
  }

  ghost predicate Tallied<Id>(trace: seq<Event<Id>>, s: Server<Id>, id: Id) {
    if id in s.subs then
      && s.subs[id].accepted == AcceptedOf(trace, id)
      && Takings(trace, id) == Taken(s.subs[id])
    else AcceptedOf(trace, id) == [] && Takings(trace, id) == 0
  }

  lemma {:induction false} TalliesAppend<Id>(before: seq<Event<Id>>, e: Event<Id>, id: Id)
    ensures Takings(before + [e], id) == Takings(before, id) + if e == Receive(id) then 1 else 0
    ensures AcceptedOf(before + [e], id) ==
            if e.Publish? && TopicOf(before, id) == Some(e.msg.topic) && |AcceptedOf(before, id)| == Takings(before, id)
            then AcceptedOf(before, id) + [e.msg] else AcceptedOf(before, id)
  {
    assert (before + [e])[..|before|] == before;
  }

  lemma {:induction false} PublishTallies<Id>(before: seq<Event<Id>>, s: Server<Id>, m: Message, id: Id)
    requires Inv(s) && Accounted(before, s, id) && Tallied(before, s, id) && Step(s, Publish(m)).Next?
    ensures Tallied(before + [Publish(m)], Step(s, Publish(m)).server, id)
  {
    TalliesAppend(before, Publish(m), id);
    PublishEffect(s, m);
    if id in s.subs {
      assert Sound(s, id, s.subs[id]);
      assert id in Listeners(s, m.topic) <==> TopicOf(before, id) == Some(m.topic);
    }
  }

  lemma {:induction false} QuietTaken<Id>(s: Server<Id>, e: Event<Id>, id: Id)
    requires Inv(s) && Step(s, e).Next? && !e.Publish? && id in s.subs
    ensures var s' := Step(s, e).server;
            && id in s'.subs && s'.subs[id].accepted == s.subs[id].accepted
            && Taken(s'.subs[id]) == Taken(s.subs[id]) + if e == Receive(id) then 1 else 0
  {
    assert Sound(s, id, s.subs[id]);
  }

  lemma {:induction false} StepTallies<Id>(before: seq<Event<Id>>, s: Server<Id>, e: Event<Id>, id: Id)
    requires Inv(s) && Accounted(before, s, id) && Tallied(before, s, id) && Step(s, e).Next?
    ensures Tallied(before + [e], Step(s, e).server, id)
  {
    if e.Publish? {
      PublishTallies(before, s, e.msg, id);
    } else {
      TalliesAppend(before, e, id);
      if id in s.subs {
        QuietTaken(s, e, id);
      }
    }
  }

  lemma {:induction false} TraceTallies<Id>(trace: seq<Event<Id>>, id: Id)
    requires Run(trace).Next?
    ensures Tallied(trace, Run(trace).server, id)
  {
    if trace != [] {
      var before, e := trace[..|trace| - 1], trace[|trace| - 1];
      TraceTallies(before, id);
      TraceAccounts(before, id);
      ReachableInv(before);
      StepTallies(before, Run(before).server, e, id);
      assert before + [e] == trace;
    }
  }

  /**
   * What a subscriber gets, off the trace alone: of the messages published to its topic the channel keeps
   * each that finds it empty and no other, it gives them out in order, and the stream has as many of them,
   * from the first on, as sends have succeeded.
   */
  lemma {:induction false} DeliveriesExactly<Id>(trace: seq<Event<Id>>, id: Id)
    requires Run(trace).Next? && id in Run(trace).server.subs
    ensures var u, accepted := Run(trace).server.subs[id], AcceptedOf(trace, id);
            && Takings(trace, id) <= |accepted| && u.buffer == accepted[Takings(trace, id)..]
            && Returned(trace, id, true) <= |accepted| && u.sent == accepted[..Returned(trace, id, true)]
  {
    ReachableInv(trace);
    TraceTallies(trace, id);
    SendsCounted(trace, id);
    var u := Run(trace).server.subs[id];
    assert Sound(Run(trace).server, id, u);
    assert u.accepted == (u.sent + u.failed + InFlight(u)) + u.buffer;
  }

  // --- Subscribers do not disturb each other ---

  predicate Concerns<Id(==)>(e: Event<Id>, id: Id, topic: string) {
    if e.Publish? then e.msg.topic == topic else e.id == id
  }

  /** A subscriber's own steps and the publishes to its topic. */
  function View<Id(==)>(trace: seq<Event<Id>>, id: Id, topic: string): seq<Event<Id>> {
    if trace == [] then []
    else
      var before, e := trace[..|trace| - 1], trace[|trace| - 1];
      if Concerns(e, id, topic) then View(before, id, topic) + [e] else View(before, id, topic)
  }

  ghost predicate SameFor<Id>(s: Server<Id>, s': Server<Id>, id: Id) {
    && (id in s.subs <==> id in s'.subs)
    && (id in s.subs ==> s.subs[id] == s'.subs[id])
  }

  lemma {:induction false} OwnStep<Id>(s: Server<Id>, s': Server<Id>, e: Event<Id>, id: Id, topic: string)
    requires Inv(s) && Inv(s') && SameFor(s, s', id) && Step(s, e).Next?
    requires id in s.subs ==> s.subs[id].topic == topic
    ensures Concerns(e, id, topic) ==> Step(s', e).Next? && SameFor(Step(s, e).server, Step(s', e).server, id)
    ensures !Concerns(e, id, topic) ==> SameFor(Step(s, e).server, s', id)
  {
    if id in s.subs {
      assert Sound(s, id, s.subs[id]) && Sound(s', id, s'.subs[id]);
    }
    if e.Publish? {
      PublishEffect(s, e.msg);
      PublishEffect(s', e.msg);
    }
  }

  lemma {:induction false} ViewDecides<Id>(trace: seq<Event<Id>>, id: Id, topic: string)
    requires Run(trace).Next?
    requires id in Run(trace).server.subs ==> Run(trace).server.subs[id].topic == topic
    ensures Run(View(trace, id, topic)).Next?
    ensures SameFor(Run(trace).server, Run(View(trace, id, topic)).server, id)
  {
    if trace != [] {
      var before, e := trace[..|trace| - 1], trace[|trace| - 1];
      var s := Run(before).server;
      ViewDecides(before, id, topic);
      var view := View(before, id, topic);
      ReachableInv(before);
      ReachableInv(view);
      OwnStep(s, Run(view).server, e, id, topic);
      assert (view + [e])[..|view|] == view;
    }
  }

  /**
   * Two interleavings that agree on one subscriber's steps and on the publishes to its topic leave it
   * with the same buffer, deliveries and drops, whatever all the others did.
   */
  lemma {:induction false} NonInterference<Id>(trace1: seq<Event<Id>>, trace2: seq<Event<Id>>, id: Id, topic: string)
    requires Run(trace1).Next? && Run(trace2).Next?
    requires id in Run(trace1).server.subs && Run(trace1).server.subs[id].topic == topic
    requires View(trace1, id, topic) == View(trace2, id, topic)
    requires id in Run(trace2).server.subs && Run(trace2).server.subs[id].topic == topic
    ensures Run(trace1).server.subs[id] == Run(trace2).server.subs[id]
  {
    ViewDecides(trace1, id, topic);
    ViewDecides(trace2, id, topic);
  }
}
