/** The topic server over real channels: every method refines steps of the `PubSub` system. */
module TopicServer {
  import opened PubSub

  /** A Go channel of capacity one. */
  class Channel {
    var buffer: seq<Message>
    var closed: bool

    constructor ()
      ensures buffer == [] && !closed
    {
      buffer, closed := [], false;
    }

    /** `select { case ch <- m: default: }` */
    method TrySend(m: Message)
      requires !closed
      modifies this`buffer
      ensures buffer == if |old(buffer)| < 1 then old(buffer) + [m] else old(buffer)
    {
      if |buffer| < 1 {
        buffer := buffer + [m];
      }
    }

    method Close()
      requires !closed
      modifies this`closed
      ensures closed
    {
      closed := true;
    }
  }

  /** Offers the message to each channel once; the order in which they are visited cannot be seen. */
  method OfferAll(channels: set<Channel>, m: Message)
    requires forall ch :: ch in channels ==> !ch.closed
    modifies channels
    ensures forall ch :: ch in channels ==>
              !ch.closed && ch.buffer == if |old(ch.buffer)| < 1 then old(ch.buffer) + [m] else old(ch.buffer)
  {
    var todo := channels;
    while todo != {}
      invariant todo <= channels
      invariant forall ch :: ch in channels ==> !ch.closed
      invariant forall ch :: ch in todo ==> ch.buffer == old(ch.buffer)
      invariant forall ch :: ch in channels - todo ==>
                  ch.buffer == if |old(ch.buffer)| < 1 then old(ch.buffer) + [m] else old(ch.buffer)
      decreases todo
    {
      var ch :| ch in todo;
      todo := todo - {ch};
      ch.TrySend(m);
    }
  }

  /** Where another handler stands. */
  datatype Handler = Handler(topic: string, phase: Phase)

  /** A step of somebody else: a publisher, a new subscriber, or another subscriber's handler. */
  datatype Doing =
    | Publishes(msg: Message)
    | Joins(topic: string)
    | Receives(other: Channel)
    | Answers(other: Channel, ok: bool)
    | Finishes(other: Channel)
    | Leaves(other: Channel)

  /**
   * What happens next while a handler runs: others do something, the handler's `select` takes its
   * channel and the stream answers after others did something, or its context ends.
   */
  datatype Turn = Elsewhere(doing: Doing) | Takes(meanwhile: seq<Doing>, ok: bool) | Ends

  // --- A handler as its turns describe it ---

  /** A place for one message, which a publish to its topic fills if it is empty. */
  function Slot(slot: seq<Message>, topic: string, doing: Doing): seq<Message> {
    if doing.Publishes? && doing.msg.topic == topic && slot == [] then [doing.msg] else slot
  }

  function Slots(slot: seq<Message>, topic: string, doings: seq<Doing>): seq<Message> {
    if doings == [] then slot else Slot(Slots(slot, topic, doings[..|doings| - 1]), topic, doings[|doings| - 1])
  }

  /** What waits for the handler, what it has sent, and whether it has left its loop. */
  datatype Handling = Handling(slot: seq<Message>, sent: seq<Message>, left: bool)

  function AfterTurn(h: Handling, topic: string, turn: Turn): Handling {
    if h.left then h
    else
      match turn
      case Elsewhere(doing) => h.(slot := Slot(h.slot, topic, doing))
      case Takes(meanwhile, ok) =>
        if h.slot == [] then h
        else Handling(Slots([], topic, meanwhile), if ok then h.sent + h.slot else h.sent, !ok)
      case Ends => h.(left := true)
  }

  function AfterTurns(h: Handling, topic: string, turns: seq<Turn>): Handling {
    if turns == [] then h
    else AfterTurn(AfterTurns(h, topic, turns[..|turns| - 1]), topic, turns[|turns| - 1])
  }

  const FRESH := Handling([], [], false)

  /** Each message published and then taken, one after the other. */
  function OneByOne(msgs: seq<Message>): seq<Turn> {
    if msgs == [] then []
    else OneByOne(msgs[..|msgs| - 1]) + [Elsewhere(Publishes(msgs[|msgs| - 1])), Takes([], true)]
  }

  /** A handler that keeps up, on a stream that accepts, delivers every message of its topic in order, and no other. */
  lemma {:induction false} KeepingUpDeliversAll(topic: string, msgs: seq<Message>)
    ensures AfterTurns(FRESH, topic, OneByOne(msgs)) == Handling([], OfTopic(topic, msgs), false)
  {
    if msgs != [] {
      var before, m := msgs[..|msgs| - 1], msgs[|msgs| - 1];
      var turns := OneByOne(before);
      KeepingUpDeliversAll(topic, before);
      var published := turns + [Elsewhere(Publishes(m))];
      assert published[..|published| - 1] == turns;
      var taken := published + [Takes([], true)];
      assert taken[..|taken| - 1] == published;
      assert OneByOne(msgs) == taken;
    }
  }

  function OfTopic(topic: string, msgs: seq<Message>): seq<Message> {
    if msgs == [] then []
    else
      var before, m := OfTopic(topic, msgs[..|msgs| - 1]), msgs[|msgs| - 1];
      if m.topic == topic then before + [m] else before
  }

  function Published(doings: seq<Doing>): seq<Message> {
    if doings == [] then []
    else
      var before, doing := Published(doings[..|doings| - 1]), doings[|doings| - 1];
      if doing.Publishes? then before + [doing.msg] else before
  }

  /** While nothing is taken, the first message of the topic is kept and all later ones are dropped. */
  lemma {:induction false} FirstIsKept(topic: string, doings: seq<Doing>)
    ensures var arrived := OfTopic(topic, Published(doings));
            Slots([], topic, doings) == if arrived == [] then [] else [arrived[0]]
  {
    if doings != [] {
      var before, doing := doings[..|doings| - 1], doings[|doings| - 1];
      FirstIsKept(topic, before);
      if doing.Publishes? {
        assert (Published(before) + [doing.msg])[..|Published(before)|] == Published(before);
      }
    }
  }

  lemma {:induction false} LeftStays(h: Handling, topic: string, turns: seq<Turn>, k: nat)
    requires k <= |turns| && AfterTurns(h, topic, turns[..k]).left
    ensures AfterTurns(h, topic, turns) == AfterTurns(h, topic, turns[..k])
  {
    if k == |turns| {
      assert turns[..k] == turns;
    } else {
      var before := turns[..|turns| - 1];
      assert before[..k] == turns[..k];
      LeftStays(h, topic, before, k);
    }
  }

  lemma {:induction false} EndsLeaves(h: Handling, topic: string, turns: seq<Turn>)
    requires Ends in turns
    ensures AfterTurns(h, topic, turns).left
  {
    var before := turns[..|turns| - 1];
    if turns[|turns| - 1] != Ends {
      assert turns == before + [turns[|turns| - 1]];
      EndsLeaves(h, topic, before);
    }
  }

  lemma {:induction false} OneTurn(
    h: Handling, topic: string, turns: seq<Turn>, i: nat, slot: seq<Message>, sent: seq<Message>, after: Handling)
    requires i < |turns| && AfterTurns(h, topic, turns[..i]) == Handling(slot, sent, false)
    requires after == AfterTurn(Handling(slot, [], false), topic, turns[i])
    ensures AfterTurns(h, topic, turns[..i + 1]) == after.(sent := sent + after.sent)
  {
    assert turns[..i + 1][..i] == turns[..i];
  }

  // --- Runs seen from one handler ---

  /** A run in which a subscriber took no step of its own, though its channel may have got a message. */
  ghost predicate Aside<Id>(from: Server<Id>, to: Server<Id>, id: Id, steps: seq<Event<Id>>) {
    && RunFrom(from, steps) == Next(to)
    && id in from.subs && id in to.subs && to.subs[id].topic == from.subs[id].topic
    && to.subs[id].open == from.subs[id].open
    && to.subs[id].sent == from.subs[id].sent && to.subs[id].phase == from.subs[id].phase
  }

  lemma {:induction false} PublishFills<Id>(s: Server<Id>, m: Message, id: Id)
    requires Inv(s) && id in s.subs && s.subs[id].open && Step(s, Event.Publish(m)).Next?
    ensures Step(s, Event.Publish(m)).server.subs[id].buffer ==
            Slot(s.subs[id].buffer, s.subs[id].topic, Publishes(m))
  {
    assert Sound(s, id, s.subs[id]);
    PublishEffect(s, m);
  }

  lemma {:induction false} OthersKeepBuffer<Id>(s: Server<Id>, e: Event<Id>, id: Id)
    requires id in s.subs && Step(s, e).Next? && !e.Publish? && e.id != id
    ensures Step(s, e).server.subs[id].buffer == s.subs[id].buffer
  {
  }

  /** Others stand where they are said to. */
  ghost predicate StandAt<Id>(s: Server<Id>, others: map<Id, Handler>) {
    forall id :: id in others ==>
      id in s.subs && s.subs[id].topic == others[id].topic && s.subs[id].phase == others[id].phase
  }

  lemma {:induction false} StandStep<Id>(s: Server<Id>, e: Event<Id>, others: map<Id, Handler>)
    requires Inv(s) && StandAt(s, others) && Step(s, e).Next?
    ensures var s' := Step(s, e).server;
            if e.Publish? then StandAt(s', others)
            else e.id in s'.subs && StandAt(s', others[e.id := Handler(s'.subs[e.id].topic, s'.subs[e.id].phase)])
  {
    if e.Publish? {
      PublishEffect(s, e.msg);
    }
  }

  lemma {:induction false} StillStand<Id>(s: Server<Id>, id: Id, others: map<Id, Handler>)
    requires id in s.subs && StandAt(s, others[id := Handler(s.subs[id].topic, s.subs[id].phase)]) && id !in others
    ensures StandAt(s, others)
  {
    var all := others[id := Handler(s.subs[id].topic, s.subs[id].phase)];
    assert forall c :: c in others ==> c in all && all[c] == others[c];
  }

  lemma {:induction false} NothingDone<Id>(s: Server<Id>, id: Id)
    requires id in s.subs
    ensures Aside(s, s, id, [])
  {
  }

  lemma {:induction false} OthersStep<Id>(s: Server<Id>, e: Event<Id>, id: Id)
    requires Inv(s) && id in s.subs && Step(s, e).Next? && (e.Publish? || e.id != id)
    ensures Aside(s, Step(s, e).server, id, [e])
  {
    OneStep(s, e);
    if e.Publish? {
      PublishEffect(s, e.msg);
    }
  }

  lemma {:induction false} AsideOn<Id>(
    from: Server<Id>, mid: Server<Id>, to: Server<Id>, id: Id, steps: seq<Event<Id>>, others: seq<Event<Id>>)
    requires Aside(from, mid, id, steps) && Aside(mid, to, id, others)
    ensures Aside(from, to, id, steps + others)
  {
    RunsFollow(from, steps, others);
  }

  /** A run in which one handler sent `sent` and stayed in its loop, or is leaving now. */
  ghost predicate Serving<Id>(
    from: Server<Id>, to: Server<Id>, id: Id, sent: seq<Message>, left: bool, steps: seq<Event<Id>>)
  {
    && RunFrom(from, steps) == Next(to)
    && id in from.subs && id in to.subs && to.subs[id].topic == from.subs[id].topic
    && to.subs[id].sent == from.subs[id].sent + sent
    && to.subs[id].phase == if left then Leaving else Looping
  }

  lemma {:induction false} ServingOn<Id>(
    from: Server<Id>, mid: Server<Id>, to: Server<Id>, id: Id,
    sent: seq<Message>, more: seq<Message>, left: bool, steps: seq<Event<Id>>, others: seq<Event<Id>>)
    requires Serving(from, mid, id, sent, false, steps) && Serving(mid, to, id, more, left, others)
    ensures Serving(from, to, id, sent + more, left, steps + others)
  {
    RunsFollow(from, steps, others);
  }

  lemma {:induction false} NotServing<Id>(s: Server<Id>, id: Id)
    requires id in s.subs && s.subs[id].phase.Looping?
    ensures Serving(s, s, id, [], false, [])
  {
  }

  lemma {:induction false} AsideServing<Id>(from: Server<Id>, to: Server<Id>, id: Id, steps: seq<Event<Id>>)
    requires Aside(from, to, id, steps) && from.subs[id].phase.Looping?
    ensures Serving(from, to, id, [], false, steps)
  {
  }

  /** A run in which the subscriber took `m` and has not seen it sent. */
  ghost predicate Holding<Id>(from: Server<Id>, to: Server<Id>, id: Id, m: Message, steps: seq<Event<Id>>) {
    && RunFrom(from, steps) == Next(to)
    && id in from.subs && id in to.subs && to.subs[id].topic == from.subs[id].topic
    && to.subs[id].sent == from.subs[id].sent && to.subs[id].phase == Sending(m)
  }

  lemma {:induction false} Held<Id>(
    from: Server<Id>, mid: Server<Id>, to: Server<Id>, id: Id, m: Message, others: seq<Event<Id>>)
    requires Step(from, Event.Receive(id)) == Next(mid) && id in mid.subs && mid.subs[id].phase == Sending(m)
    requires Aside(mid, to, id, others)
    ensures Holding(from, to, id, m, [Event.Receive(id)] + others)
  {
    OneStep(from, Event.Receive(id));
    RunsFollow(from, [Event.Receive(id)], others);
  }

  lemma {:induction false} Answered<Id>(
    from: Server<Id>, mid: Server<Id>, to: Server<Id>, id: Id, m: Message, ok: bool, steps: seq<Event<Id>>)
    requires Holding(from, mid, id, m, steps) && Step(mid, Event.SendReturned(id, ok)) == Next(to)
    ensures Serving(from, to, id, if ok then [m] else [], !ok, steps + [Event.SendReturned(id, ok)])
  {
    OneStep(mid, Event.SendReturned(id, ok));
    RunsFollow(from, steps, [Event.SendReturned(id, ok)]);
  }

  /** A run from before the subscriber joined. */
  ghost predicate Served<Id>(
    from: Server<Id>, to: Server<Id>, id: Id, topic: string, sent: seq<Message>, phase: Phase, trace: seq<Event<Id>>)
  {
    && RunFrom(from, trace) == Next(to)
    && id in to.subs && to.subs[id].topic == topic && to.subs[id].sent == sent && to.subs[id].phase == phase
  }

  lemma {:induction false} Joined<Id>(
    from: Server<Id>, mid: Server<Id>, to: Server<Id>, id: Id, topic: string,
    sent: seq<Message>, left: bool, steps: seq<Event<Id>>)
    requires Step(from, Event.Subscribe(id, topic)) == Next(mid) && Serving(mid, to, id, sent, left, steps)
    ensures Served(from, to, id, topic, sent, if left then Leaving else Looping, [Event.Subscribe(id, topic)] + steps)
  {
    OneStep(from, Event.Subscribe(id, topic));
    RunsFollow(from, [Event.Subscribe(id, topic)], steps);
  }

  lemma {:induction false} Departed<Id>(
    from: Server<Id>, mid: Server<Id>, to: Server<Id>, id: Id, topic: string, sent: seq<Message>, trace: seq<Event<Id>>)
    requires Served(from, mid, id, topic, sent, Leaving, trace) && Step(mid, Remove(id)) == Next(to) && Inv(to)
    ensures Served(from, to, id, topic, sent, Gone, trace + [Remove(id)])
    ensures !to.subs[id].open && Step(to, CloseAgain(id)).Fault?
  {
    OneStep(mid, Remove(id));
    RunsFollow(from, trace, [Remove(id)]);
    assert Sound(to, id, to.subs[id]);
  }

  lemma {:induction false} SentWasOffered<Id>(
    from: Server<Id>, to: Server<Id>, id: Id, topic: string, sent: seq<Message>, phase: Phase, trace: seq<Event<Id>>)
    requires Served(from, to, id, topic, sent, phase, trace)
    ensures forall past :: Run(past) == Next(from) ==> Subsequence(sent, Offered(past + trace, id))
  {
    forall past | Run(past) == Next(from)
      ensures Subsequence(sent, Offered(past + trace, id))
    {
      RunsJoin(past, trace);
      Conservation(past + trace, id);
    }
  }

  class PubSubServer {
    var subscribers: map<string, set<Channel>>
    /** The system state this server and all its channels stand in. */
    ghost var model: Server<Channel>

    ghost predicate Valid()
      reads this, model.subs.Keys
    {
      && Inv(model)
      && subscribers == model.topics
      && (forall ch :: ch in model.subs ==> ch.buffer == model.subs[ch].buffer && ch.closed == !model.subs[ch].open)
    }

    constructor ()
      ensures Valid() && model == Server(map[], map[])
    {
      subscribers := map[];
      model := Server(map[], map[]);
    }

    method AddSubscriber(topic: string, ch: Channel)
      requires Valid() && ch !in model.subs && ch.buffer == [] && !ch.closed
      modifies this
      ensures Valid() && Step(old(model), Event.Subscribe(ch, topic)) == Next(model)
    {
      StepKeepsInv(model, Event.Subscribe(ch, topic));
      if topic !in subscribers {
        subscribers := subscribers[topic := {}];
      }
      subscribers := subscribers[topic := subscribers[topic] + {ch}];
      assert subscribers == Step(model, Event.Subscribe(ch, topic)).server.topics;
      model := Step(model, Event.Subscribe(ch, topic)).server;
    }

    /** The start of the Subscribe handler: a fresh channel joins the topic. */
    method Subscribe(topic: string) returns (ch: Channel)
      requires Valid()
      modifies this
      ensures Valid() && fresh(ch) && Step(old(model), Event.Subscribe(ch, topic)) == Next(model)
      ensures model.subs.Keys == old(model.subs.Keys) + {ch}
    {
      ch := new Channel();
      AddSubscriber(topic, ch);
    }

    method Publish(m: Message)
      requires Valid()
      modifies this`model, if m.topic in subscribers then subscribers[m.topic] else {}
      ensures Valid() && Step(old(model), Event.Publish(m)) == Next(model)
      ensures model.subs.Keys == old(model.subs.Keys)
    {
      ghost var targets := Listeners(model, m.topic);
      PublishEffect(model, m);
      if m.topic in subscribers {
        OfferAll(subscribers[m.topic], m);
      }
      model := Step(model, Event.Publish(m)).server;
    }

    /** Leaves the topic and closes the channel in one critical section. */
    method RemoveSubscriber(topic: string, ch: Channel)
      requires Valid() && ch in model.subs && model.subs[ch].topic == topic && model.subs[ch].phase.Leaving?
      modifies this, ch`closed
      ensures Valid() && Step(old(model), Remove(ch)) == Next(model)
      ensures model.subs.Keys == old(model.subs.Keys)
    {
      assert Sound(model, ch, model.subs[ch]);
      StepKeepsInv(model, Remove(ch));
      if topic in subscribers {
        subscribers := subscribers[topic := subscribers[topic] - {ch}];
        ch.Close();
      }
      model := Step(model, Remove(ch)).server;
    }

    /** The handler's receive, when its channel has a message. */
    method Receive(ch: Channel) returns (m: Message)
      requires Valid() && ch in model.subs && model.subs[ch].phase.Looping? && ch.buffer != []
      modifies this`model, ch`buffer
      ensures Valid() && Step(old(model), Event.Receive(ch)) == Next(model)
      ensures model.subs.Keys == old(model.subs.Keys)
      ensures model.subs[ch].phase == Sending(m) && old(ch.buffer) == [m] && ch.buffer == []
    {
      assert Sound(model, ch, model.subs[ch]);
      StepKeepsInv(model, Event.Receive(ch));
      m := ch.buffer[0];
      ch.buffer := ch.buffer[1..];
      model := Step(model, Event.Receive(ch)).server;
    }

    /** The stream's answer to the message the handler holds. */
    method SendReturned(ch: Channel, ok: bool)
      requires Valid() && ch in model.subs && model.subs[ch].phase.Sending?
      modifies this`model
      ensures Valid() && Step(old(model), Event.SendReturned(ch, ok)) == Next(model)
      ensures model.subs.Keys == old(model.subs.Keys)
    {
      assert Sound(model, ch, model.subs[ch]);
      StepKeepsInv(model, Event.SendReturned(ch, ok));
      model := Step(model, Event.SendReturned(ch, ok)).server;
    }

    /** The end of the subscriber's context, seen in the handler's `select`. */
    method ContextDone(ch: Channel)
      requires Valid() && ch in model.subs && model.subs[ch].phase.Looping?
      modifies this`model
      ensures Valid() && Step(old(model), Event.ContextDone(ch)) == Next(model)
      ensures model.subs.Keys == old(model.subs.Keys)
    {
      assert Sound(model, ch, model.subs[ch]);
      StepKeepsInv(model, Event.ContextDone(ch));
      model := Step(model, Event.ContextDone(ch)).server;
    }

    /** Another handler receives, if it can. */
    method OtherReceives(ch: Channel, other: Channel, others: map<Channel, Handler>)
      returns (handlers: map<Channel, Handler>, ghost steps: seq<Event<Channel>>)
      requires Valid() && ch in model.subs && model.subs[ch].open
      requires StandAt(model, others) && ch !in others && other in others
      modifies this`model, other`buffer
      ensures Valid() && StandAt(model, handlers) && handlers.Keys == others.Keys
      ensures model.subs.Keys == old(model.subs.Keys) && Aside(old(model), model, ch, steps)
      ensures model.subs[ch].buffer == old(model.subs[ch].buffer)
      ensures steps == if others[other].phase.Looping? && old(other.buffer) != [] then [Event.Receive(other)] else []
    {
      if others[other].phase != Looping || other.buffer == [] {
        NothingDone(model, ch);
        return others, [];
      }
      ghost var before := model;
      var m := Receive(other);
      OthersStep(before, Event.Receive(other), ch);
      OthersKeepBuffer(before, Event.Receive(other), ch);
      StandStep(before, Event.Receive(other), others);
      return others[other := Handler(others[other].topic, Sending(m))], [Event.Receive(other)];
    }

    /** Another handler's send returns, if it has one under way. */
    method OtherAnswers(ch: Channel, other: Channel, ok: bool, others: map<Channel, Handler>)
      returns (handlers: map<Channel, Handler>, ghost steps: seq<Event<Channel>>)
      requires Valid() && ch in model.subs && model.subs[ch].open
      requires StandAt(model, others) && ch !in others && other in others
      modifies this`model
      ensures Valid() && StandAt(model, handlers) && handlers.Keys == others.Keys
      ensures model.subs.Keys == old(model.subs.Keys) && Aside(old(model), model, ch, steps)
      ensures model.subs[ch].buffer == old(model.subs[ch].buffer)
      ensures steps == if others[other].phase.Sending? then [Event.SendReturned(other, ok)] else []
    {
      if !others[other].phase.Sending? {
        NothingDone(model, ch);
        return others, [];
      }
      ghost var before := model;
      SendReturned(other, ok);
      OthersStep(before, Event.SendReturned(other, ok), ch);
      OthersKeepBuffer(before, Event.SendReturned(other, ok), ch);
      StandStep(before, Event.SendReturned(other, ok), others);
      var phase := if ok then Looping else Leaving;
      return others[other := Handler(others[other].topic, phase)], [Event.SendReturned(other, ok)];
    }

    /** Another handler's context ends, if it is there to see it. */
    method OtherFinishes(ch: Channel, other: Channel, others: map<Channel, Handler>)
      returns (handlers: map<Channel, Handler>, ghost steps: seq<Event<Channel>>)
      requires Valid() && ch in model.subs && model.subs[ch].open
      requires StandAt(model, others) && ch !in others && other in others
      modifies this`model
      ensures Valid() && StandAt(model, handlers) && handlers.Keys == others.Keys
      ensures model.subs.Keys == old(model.subs.Keys) && Aside(old(model), model, ch, steps)
      ensures model.subs[ch].buffer == old(model.subs[ch].buffer)
      ensures steps == if others[other].phase.Looping? then [Event.ContextDone(other)] else []
    {
      if others[other].phase != Looping {
        NothingDone(model, ch);
        return others, [];
      }
      ghost var before := model;
      ContextDone(other);
      OthersStep(before, Event.ContextDone(other), ch);
      OthersKeepBuffer(before, Event.ContextDone(other), ch);
      StandStep(before, Event.ContextDone(other), others);
      return others[other := Handler(others[other].topic, Leaving)], [Event.ContextDone(other)];
    }

    /** Another handler leaves the server, if it has come to that. */
    method OtherLeaves(ch: Channel, other: Channel, others: map<Channel, Handler>)
      returns (handlers: map<Channel, Handler>, ghost steps: seq<Event<Channel>>)
      requires Valid() && ch in model.subs && model.subs[ch].open
      requires StandAt(model, others) && ch !in others && other in others
      modifies this, other`closed
      ensures Valid() && StandAt(model, handlers) && handlers.Keys == others.Keys
      ensures model.subs.Keys == old(model.subs.Keys) && Aside(old(model), model, ch, steps)
      ensures model.subs[ch].buffer == old(model.subs[ch].buffer)
      ensures steps == if others[other].phase.Leaving? then [Remove(other)] else []
    {
      if others[other].phase != Leaving {
        NothingDone(model, ch);
        return others, [];
      }
      ghost var before := model;
      RemoveSubscriber(others[other].topic, other);
      OthersStep(before, Remove(other), ch);
      OthersKeepBuffer(before, Remove(other), ch);
      StandStep(before, Remove(other), others);
      return others[other := Handler(others[other].topic, Gone)], [Remove(other)];
    }

    /** Somebody publishes or joins. */
    method Arrives(ch: Channel, doing: Doing, others: map<Channel, Handler>)
      returns (handlers: map<Channel, Handler>, ghost steps: seq<Event<Channel>>)
      requires Valid() && ch in model.subs && model.subs[ch].open && StandAt(model, others) && ch !in others
      requires doing.Publishes? || doing.Joins?
      modifies this, model.subs.Keys
      ensures Valid() && StandAt(model, handlers) && ch !in handlers && others.Keys <= handlers.Keys
      ensures fresh(model.subs.Keys - old(model.subs.Keys)) && Aside(old(model), model, ch, steps)
      ensures model.subs[ch].buffer == Slot(old(model.subs[ch].buffer), old(model.subs[ch].topic), doing)
      ensures doing.Publishes? ==> steps == [Event.Publish(doing.msg)]
      ensures doing.Joins? ==>
                |steps| == 1 && steps[0].Subscribe? && steps[0].topic == doing.topic && fresh(steps[0].id)
    {
      ghost var before := model;
      if doing.Publishes? {
        PublishEffect(model, doing.msg);
        Publish(doing.msg);
        OthersStep(before, Event.Publish(doing.msg), ch);
        PublishFills(before, doing.msg, ch);
        StandStep(before, Event.Publish(doing.msg), others);
        handlers, steps := others, [Event.Publish(doing.msg)];
      } else {
        var joined := Subscribe(doing.topic);
        OthersStep(before, Event.Subscribe(joined, doing.topic), ch);
        OthersKeepBuffer(before, Event.Subscribe(joined, doing.topic), ch);
        StandStep(before, Event.Subscribe(joined, doing.topic), others);
        handlers, steps := others[joined := Handler(doing.topic, Looping)], [Event.Subscribe(joined, doing.topic)];
      }
    }

    /** A step of somebody other than the handler of `ch`; nothing, where it cannot be taken. */
    method Other(ch: Channel, doing: Doing, others: map<Channel, Handler>)
      returns (handlers: map<Channel, Handler>, ghost steps: seq<Event<Channel>>)
      requires Valid() && ch in model.subs && model.subs[ch].open && StandAt(model, others) && ch !in others
      modifies this, model.subs.Keys
      ensures Valid() && StandAt(model, handlers) && ch !in handlers && others.Keys <= handlers.Keys
      ensures fresh(model.subs.Keys - old(model.subs.Keys)) && Aside(old(model), model, ch, steps)
      ensures model.subs[ch].buffer == Slot(old(model.subs[ch].buffer), old(model.subs[ch].topic), doing)
      ensures match doing
              case Publishes(m) => steps == [Event.Publish(m)]
              case Joins(topic) => |steps| == 1 && steps[0].Subscribe? && steps[0].topic == topic && fresh(steps[0].id)
              case Receives(o) =>
                steps == if o in others && others[o].phase.Looping? && old(o.buffer) != [] then [Event.Receive(o)]
                         else []
              case Answers(o, ok) =>
                steps == if o in others && others[o].phase.Sending? then [Event.SendReturned(o, ok)] else []
              case Finishes(o) =>
                steps == if o in others && others[o].phase.Looping? then [Event.ContextDone(o)] else []
              case Leaves(o) =>
                steps == if o in others && others[o].phase.Leaving? then [Remove(o)] else []
    {
      if doing.Publishes? || doing.Joins? {
        handlers, steps := Arrives(ch, doing, others);
      } else if doing.other !in others {
        NothingDone(model, ch);
        handlers, steps := others, [];
      } else {
        match doing
        case Receives(other) => handlers, steps := OtherReceives(ch, other, others);
        case Answers(other, ok) => handlers, steps := OtherAnswers(ch, other, ok, others);
        case Finishes(other) => handlers, steps := OtherFinishes(ch, other, others);
        case Leaves(other) => handlers, steps := OtherLeaves(ch, other, others);
      }
    }

    /** What others do while the handler of `ch` is busy. */
    method Meanwhile(ch: Channel, doings: seq<Doing>, others: map<Channel, Handler>)
      returns (handlers: map<Channel, Handler>, ghost steps: seq<Event<Channel>>)
      requires Valid() && ch in model.subs && model.subs[ch].open && StandAt(model, others) && ch !in others
      modifies this, model.subs.Keys
      ensures Valid() && StandAt(model, handlers) && ch !in handlers && others.Keys <= handlers.Keys
      ensures fresh(model.subs.Keys - old(model.subs.Keys)) && Aside(old(model), model, ch, steps)
      ensures model.subs[ch].buffer == Slots(old(model.subs[ch].buffer), old(model.subs[ch].topic), doings)
    {
      handlers, steps := others, [];
      NothingDone(model, ch);
      for i := 0 to |doings|
        invariant Valid() && StandAt(model, handlers)
        invariant ch !in handlers && others.Keys <= handlers.Keys
        invariant fresh(model.subs.Keys - old(model.subs.Keys))
        invariant Aside(old(model), model, ch, steps)
        invariant model.subs[ch].buffer == Slots(old(model.subs[ch].buffer), old(model.subs[ch].topic), doings[..i])
      {
        assert doings[..i + 1][..i] == doings[..i];
        ghost var mid, more := model, [];
        handlers, more := Other(ch, doings[i], handlers);
        AsideOn(old(model), mid, model, ch, steps, more);
        steps := steps + more;
      }
      assert doings[..|doings|] == doings;
    }

    /** The handler takes a message, and others do something before it is sent. */
    method Hold(ch: Channel, meanwhile: seq<Doing>, others: map<Channel, Handler>)
      returns (m: Message, handlers: map<Channel, Handler>, ghost steps: seq<Event<Channel>>)
      requires Valid() && ch in model.subs && StandAt(model, others) && ch !in others
      requires model.subs[ch].phase.Looping? && ch.buffer != []
      modifies this, model.subs.Keys
      ensures Valid() && StandAt(model, handlers) && ch !in handlers && others.Keys <= handlers.Keys
      ensures fresh(model.subs.Keys - old(model.subs.Keys)) && Holding(old(model), model, ch, m, steps)
      ensures old(ch.buffer) == [m]
      ensures model.subs[ch].buffer == Slots([], old(model.subs[ch].topic), meanwhile)
    {
      StandStep(model, Event.Receive(ch), others);
      m := Receive(ch);
      ghost var mid, more := model, [];
      StillStand(mid, ch, others);
      assert Sound(mid, ch, mid.subs[ch]);
      handlers, more := Meanwhile(ch, meanwhile, others);
      Held(old(model), mid, model, ch, m, more);
      steps := [Event.Receive(ch)] + more;
    }

    /** The handler takes a message, if there is one, and leaves unless the stream accepts it. */
    method Take(ch: Channel, meanwhile: seq<Doing>, ok: bool, others: map<Channel, Handler>)
      returns (sent: seq<Message>, left: bool, handlers: map<Channel, Handler>, ghost steps: seq<Event<Channel>>)
      requires Valid() && ch in model.subs && StandAt(model, others) && ch !in others
      requires model.subs[ch].phase.Looping?
      modifies this, model.subs.Keys
      ensures Valid() && StandAt(model, handlers) && ch !in handlers && others.Keys <= handlers.Keys
      ensures fresh(model.subs.Keys - old(model.subs.Keys)) && Serving(old(model), model, ch, sent, left, steps)
      ensures left <==> !ok && old(ch.buffer) != []
      ensures sent == if ok then old(ch.buffer) else []
      ensures model.subs[ch].buffer ==
              if old(ch.buffer) == [] then [] else Slots([], old(model.subs[ch].topic), meanwhile)
    {
      if ch.buffer == [] {
        NotServing(model, ch);
        return [], false, others, [];
      }
      var m;
      m, handlers, steps := Hold(ch, meanwhile, others);
      ghost var mid := model;
      StandStep(mid, Event.SendReturned(ch, ok), handlers);
      SendReturned(ch, ok);
      StillStand(model, ch, handlers);
      Answered(old(model), mid, model, ch, m, ok, steps);
      sent, left, steps := if ok then [m] else [], !ok, steps + [Event.SendReturned(ch, ok)];
    }

    /** One turn of the handler's loop, or a step of somebody else. */
    method TakeTurn(ch: Channel, turn: Turn, others: map<Channel, Handler>)
      returns (sent: seq<Message>, left: bool, handlers: map<Channel, Handler>, ghost steps: seq<Event<Channel>>)
      requires Valid() && ch in model.subs && model.subs[ch].phase.Looping? && StandAt(model, others) && ch !in others
      modifies this, model.subs.Keys
      ensures Valid() && StandAt(model, handlers) && ch !in handlers && others.Keys <= handlers.Keys
      ensures fresh(model.subs.Keys - old(model.subs.Keys)) && Serving(old(model), model, ch, sent, left, steps)
      ensures Handling(model.subs[ch].buffer, sent, left) ==
              AfterTurn(Handling(old(model.subs[ch].buffer), [], false), old(model.subs[ch].topic), turn)
    {
      match turn {
        case Elsewhere(doing) =>
          assert Sound(model, ch, model.subs[ch]);
          sent, left := [], false;
          handlers, steps := Other(ch, doing, others);
          AsideServing(old(model), model, ch, steps);
        case Takes(meanwhile, ok) =>
          sent, left, handlers, steps := Take(ch, meanwhile, ok, others);
        case Ends =>
          ContextDone(ch);
          sent, left, handlers, steps := [], true, others, [Event.ContextDone(ch)];
          OneStep(old(model), Event.ContextDone(ch));
      }
    }

    /** The handler's loop, until the handler leaves or nothing more happens. */
    method Loop(ch: Channel, turns: seq<Turn>, others: map<Channel, Handler>)
      returns (stream: seq<Message>, left: bool, handlers: map<Channel, Handler>, ghost steps: seq<Event<Channel>>)
      requires Valid() && ch in model.subs && model.subs[ch].phase.Looping? && StandAt(model, others) && ch !in others
      modifies this, model.subs.Keys
      ensures Valid() && StandAt(model, handlers) && ch !in handlers && others.Keys <= handlers.Keys
      ensures fresh(model.subs.Keys - old(model.subs.Keys)) && Serving(old(model), model, ch, stream, left, steps)
      ensures Handling(model.subs[ch].buffer, stream, left) ==
              AfterTurns(Handling(old(model.subs[ch].buffer), [], false), old(model.subs[ch].topic), turns)
    {
      stream, left, handlers, steps := [], false, others, [];
      NotServing(model, ch);
      ghost var start, topic := Handling(ch.buffer, [], false), model.subs[ch].topic;
      var i := 0;
      while i < |turns| && !left
        invariant 0 <= i <= |turns|
        invariant Valid() && StandAt(model, handlers)
        invariant ch !in handlers && others.Keys <= handlers.Keys
        invariant Serving(old(model), model, ch, stream, left, steps)
        invariant fresh(model.subs.Keys - old(model.subs.Keys))
        invariant AfterTurns(start, topic, turns[..i]) == Handling(model.subs[ch].buffer, stream, left)
      {
        var sent, exit;
        ghost var mid, more := model, [];
        sent, exit, handlers, more := TakeTurn(ch, turns[i], handlers);
        ServingOn(old(model), mid, model, ch, stream, sent, exit, steps, more);
        OneTurn(start, topic, turns, i, mid.subs[ch].buffer, stream, Handling(model.subs[ch].buffer, sent, exit));
        stream, left, steps, i := stream + sent, exit, steps + more, i + 1;
      }
      if left {
        LeftStays(start, topic, turns, i);
      } else {
        assert turns[..i] == turns;
      }
    }

    /** The handler up to its deferred leave. */
    method Join(topic: string, turns: seq<Turn>, others: map<Channel, Handler>)
      returns (ch: Channel, stream: seq<Message>, left: bool, handlers: map<Channel, Handler>,
               ghost trace: seq<Event<Channel>>)
      requires Valid() && StandAt(model, others)
      modifies this, model.subs.Keys
      ensures Valid() && StandAt(model, handlers) && ch !in handlers && others.Keys <= handlers.Keys
      ensures fresh(model.subs.Keys - old(model.subs.Keys)) && fresh(ch)
      ensures Served(old(model), model, ch, topic, stream, if left then Leaving else Looping, trace)
      ensures Handling(model.subs[ch].buffer, stream, left) == AfterTurns(FRESH, topic, turns)
    {
      ghost var from := model;
      ch := Subscribe(topic);
      ghost var mid := model;
      StandStep(from, Event.Subscribe(ch, topic), others);
      StillStand(mid, ch, others);
      ghost var steps;
      stream, left, handlers, steps := Loop(ch, turns, others);
      Joined(from, mid, model, ch, topic, stream, left, steps);
      trace := [Event.Subscribe(ch, topic)] + steps;
    }

    /**
     * The Subscribe handler from its first line to its deferred leave, amid any steps of publishers,
     * new subscribers and other handlers. The stream gets, the channel keeps and the handler ends
     * exactly as the turns say; the whole is a run of the system; whatever ran before, the stream has in
     * order only what was published to the topic meanwhile; and once the handler has left, its own close
     * faults.
     */
    method Serve(topic: string, turns: seq<Turn>, others: map<Channel, Handler>)
      returns (ch: Channel, stream: seq<Message>, left: bool, handlers: map<Channel, Handler>,
               ghost trace: seq<Event<Channel>>)
      requires Valid() && StandAt(model, others)
      modifies this, model.subs.Keys
      ensures Valid() && StandAt(model, handlers) && handlers.Keys >= others.Keys + {ch}
      ensures RunFrom(old(model), trace) == Next(model)
      ensures fresh(ch) && ch in model.subs && stream == model.subs[ch].sent
      ensures forall past :: Run(past) == Next(old(model)) ==> Subsequence(stream, Offered(past + trace, ch))
      ensures Handling(ch.buffer, stream, left) == AfterTurns(FRESH, topic, turns) && (Ends in turns ==> left)
      ensures left ==> ch.closed && model.subs[ch].phase.Gone? && Step(model, CloseAgain(ch)).Fault?
      ensures !left ==> !ch.closed && model.subs[ch].phase.Looping?
    {
      ch, stream, left, handlers, trace := Join(topic, turns, others);
      if Ends in turns {
        EndsLeaves(FRESH, topic, turns);
      }
      if left {
        ghost var mid := model;
        RemoveSubscriber(topic, ch);
        StandStep(mid, Remove(ch), handlers);
        Departed(old(model), mid, model, ch, topic, stream, trace);
        trace := trace + [Remove(ch)];
      } else {
        assert Sound(model, ch, model.subs[ch]);
      }
      SentWasOffered(old(model), model, ch, topic, stream, if left then Gone else Looping, trace);
      handlers := handlers[ch := Handler(topic, if left then Gone else Looping)];
    }
  }
}
