/**
 * The leaky bucket as written: what should have leaked since the last admission is added to the
 * stored level, not taken from it. The clock is read twice, once to measure and once to stamp.
 */
module LeakyBucket {
  import opened Clock

  datatype Bucket = Bucket(rate: real, size: real, stored: real, lastLeak: real)

  datatype Request = Request(need: real, read: real, stamp: real)

  function Level(b: Bucket, read: real): real {
    b.stored + Elapsed(b.lastLeak, read) * b.rate
  }

  predicate Admits(b: Bucket, r: Request) {
    Level(b, r.read) + r.need <= b.size
  }

  function After(b: Bucket, r: Request): Bucket {
    if Admits(b, r) then
      var level := Level(b, r.read) + r.need;
      b.(stored := if level <= 0.0 then 0.0 else level, lastLeak := r.stamp)
    else b
  }

  class LeakyBucket {
    const rate: real
    const bucketSize: real
    var storage2Process: real
    var lastLeakTime: real

    ghost function State(): Bucket
      reads this
    {
      Bucket(rate, bucketSize, storage2Process, lastLeakTime)
    }

    constructor (rate: real, bucketSize: real, now: real)
      ensures State() == Bucket(rate, bucketSize, 0.0, now)
    {
      this.rate, this.bucketSize := rate, bucketSize;
      storage2Process, lastLeakTime := 0.0, now;
    }

    method Allow(requiredTokens: real, read: real, stamp: real) returns (allowed: bool)
      modifies this
      ensures allowed == Admits(old(State()), Request(requiredTokens, read, stamp))
      ensures State() == After(old(State()), Request(requiredTokens, read, stamp))
    {
      var elapsed := Elapsed(lastLeakTime, read);
      var leakedTokens := elapsed * rate;
      var tmpStorage2Process := storage2Process + leakedTokens + requiredTokens;
      assert tmpStorage2Process == Level(State(), read) + requiredTokens;
      if tmpStorage2Process > bucketSize {
        return false;
      }
      if tmpStorage2Process <= 0.0 {
        storage2Process := 0.0;
      } else {
        storage2Process := tmpStorage2Process;
      }
      lastLeakTime := stamp;
      return true;
    }
  }

  // --- Traces ---

  function Run(b: Bucket, trace: seq<Request>): Bucket {
    if trace == [] then b else After(Run(b, trace[..|trace| - 1]), trace[|trace| - 1])
  }

  function Admitted(b: Bucket, trace: seq<Request>): real {
    if trace == [] then 0.0
    else
      var before, r := trace[..|trace| - 1], trace[|trace| - 1];
      Admitted(b, before) + if Admits(Run(b, before), r) then r.need else 0.0
  }

  /**
   * The time that admissions stamped away without measuring it: between the two readings, or beyond the longest
   * duration.
   */
  function Unmeasured(b: Bucket, trace: seq<Request>): real {
    if trace == [] then 0.0
    else
      var before, r := trace[..|trace| - 1], trace[|trace| - 1];
      var m := Run(b, before);
      Unmeasured(b, before) + if Admits(m, r) then r.stamp - m.lastLeak - Elapsed(m.lastLeak, r.read) else 0.0
  }

  predicate Sound(b: Bucket) {
    0.0 <= b.rate && 0.0 <= b.stored <= b.size
  }

  /** A clock that does not run backwards, and requests for something. */
  predicate Ordered(start: real, trace: seq<Request>) {
    trace == [] ||
    (var before, r := trace[..|trace| - 1], trace[|trace| - 1];
     && Ordered(start, before)
     && (if before == [] then start else before[|before| - 1].stamp) <= r.read <= r.stamp
     && 0.0 <= r.need)
  }

  lemma {:induction false} ClockOf(b: Bucket, trace: seq<Request>)
    requires Ordered(b.lastLeak, trace)
    ensures b.lastLeak <= Run(b, trace).lastLeak <= if trace == [] then b.lastLeak else trace[|trace| - 1].stamp
  {
    if trace != [] {
      ClockOf(b, trace[..|trace| - 1]);
    }
  }

  /** Whatever is asked for, even less than nothing: the level moves by it, and stops at empty. */
  lemma {:induction false} EmptyIsTheFloor(b: Bucket, r: Request)
    requires Admits(b, r)
    ensures var before, after := b.stored + b.rate * Elapsed(b.lastLeak, r.read), After(b, r).stored;
            0.0 <= after && before + r.need <= after && (after > 0.0 ==> after == before + r.need)
  {
  }

  /** The level against what was admitted and the time since the start, less the time not measured. */
  predicate Accounted(b: Bucket, e: Bucket, admitted: real, unmeasured: real) {
    && e.stored == b.stored + admitted + b.rate * (e.lastLeak - b.lastLeak - unmeasured)
    && b.stored + admitted <= e.stored
  }

  lemma {:induction false} AdmissionAccounts(b: Bucket, m: Bucket, r: Request, admitted: real, unmeasured: real)
    requires Sound(m) && m.rate == b.rate && m.lastLeak <= r.read && 0.0 <= r.need && Admits(m, r)
    requires Accounted(b, m, admitted, unmeasured)
    ensures Sound(After(m, r))
    ensures Accounted(b, After(m, r), admitted + r.need,
                      unmeasured + (r.stamp - m.lastLeak - Elapsed(m.lastLeak, r.read)))
  {
    var measured, more := m.lastLeak - b.lastLeak - unmeasured, Elapsed(m.lastLeak, r.read);
    var leaked := b.rate * more;
    assert 0.0 <= leaked by {
      MulMonotone(b.rate, 0.0, more);
    }
    var all := r.stamp - b.lastLeak - (unmeasured + (r.stamp - m.lastLeak - more));
    Distribute(b.rate, measured, more, all);
    assert After(m, r).stored == m.stored + leaked + r.need;
  }

  /**
   * Over any trace the stored level stays within the bucket, and it is everything that was ever admitted
   * plus the rate's output over all the time that was measured: nothing ever leaves it.
   */
  lemma {:induction false} LevelOverTraces(b: Bucket, trace: seq<Request>)
    requires Sound(b) && Ordered(b.lastLeak, trace)
    ensures var e := Run(b, trace);
            && Sound(e) && e.rate == b.rate && e.size == b.size
            && Accounted(b, e, Admitted(b, trace), Unmeasured(b, trace))
  {
    if trace != [] {
      var before, r := trace[..|trace| - 1], trace[|trace| - 1];
      LevelOverTraces(b, before);
      ClockOf(b, before);
      var m := Run(b, before);
      if Admits(m, r) {
        AdmissionAccounts(b, m, r, Admitted(b, before), Unmeasured(b, before));
      }
    }
  }

  /** Every request is measured and stamped with one reading, and no pause is longer than the longest duration. */
  predicate OneReading(start: real, trace: seq<Request>) {
    trace == [] ||
    (var before, r := trace[..|trace| - 1], trace[|trace| - 1];
     OneReading(start, before) && r.read == r.stamp && r.stamp - start <= MAX_DURATION)
  }

  lemma {:induction false} AllMeasured(b: Bucket, trace: seq<Request>)
    requires Ordered(b.lastLeak, trace) && OneReading(b.lastLeak, trace)
    ensures Unmeasured(b, trace) == 0.0
  {
    if trace != [] {
      AllMeasured(b, trace[..|trace| - 1]);
      ClockOf(b, trace[..|trace| - 1]);
    }
  }

  /**
   * With one clock reading for each call: the level is what was admitted plus the rate times the time since the
   * start.
   */
  lemma {:induction false} LevelWithOneReading(b: Bucket, trace: seq<Request>)
    requires Sound(b) && Ordered(b.lastLeak, trace) && OneReading(b.lastLeak, trace)
    ensures var e := Run(b, trace);
            0.0 <= e.stored == b.stored + Admitted(b, trace) + b.rate * (e.lastLeak - b.lastLeak) <= b.size
  {
    LevelOverTraces(b, trace);
    AllMeasured(b, trace);
  }

  /**
   * What the next request may take, whatever was asked before: the size less what was stored at the start,
   * less everything admitted since, and less the rate's output over all the time since then.
   */
  lemma {:induction false} RoomExactly(b: Bucket, trace: seq<Request>, r: Request)
    requires Sound(b) && Ordered(b.lastLeak, trace) && OneReading(b.lastLeak, trace)
    requires Run(b, trace).lastLeak <= r.read <= b.lastLeak + MAX_DURATION
    ensures Admits(Run(b, trace), r) <==>
            r.need <= b.size - b.stored - Admitted(b, trace) - b.rate * (r.read - b.lastLeak)
  {
    RunKeepsSize(b, trace);
    ClockOf(b, trace);
    SpentOverTraces(b, trace);
    RoomAt(b, Run(b, trace), Admitted(b, trace), r);
  }

  predicate Spent(b: Bucket, e: Bucket, admitted: real) {
    e.stored == b.stored + admitted + b.rate * (e.lastLeak - b.lastLeak)
  }

  lemma {:induction false} SpentOverTraces(b: Bucket, trace: seq<Request>)
    requires Sound(b) && Ordered(b.lastLeak, trace) && OneReading(b.lastLeak, trace)
    ensures Spent(b, Run(b, trace), Admitted(b, trace))
  {
    LevelWithOneReading(b, trace);
  }

  lemma {:induction false} RunKeepsSize(b: Bucket, trace: seq<Request>)
    ensures Run(b, trace).rate == b.rate && Run(b, trace).size == b.size
  {
    if trace != [] {
      RunKeepsSize(b, trace[..|trace| - 1]);
    }
  }

  lemma {:induction false} RoomAt(b: Bucket, e: Bucket, admitted: real, r: Request)
    requires e.rate == b.rate && e.size == b.size && b.lastLeak <= e.lastLeak <= r.read <= b.lastLeak + MAX_DURATION
    requires Spent(b, e, admitted)
    ensures Admits(e, r) <==> r.need <= b.size - b.stored - admitted - b.rate * (r.read - b.lastLeak)
  {
    var before, since, all := e.lastLeak - b.lastLeak, r.read - e.lastLeak, r.read - b.lastLeak;
    assert Elapsed(e.lastLeak, r.read) == since;
    Distribute(b.rate, before, since, all);
    var leaked, early, late := b.rate * since, b.rate * before, b.rate * all;
    assert Level(e, r.read) == e.stored + leaked;
    assert early + leaked == late;
  }

  /** In its whole life a bucket admits at most the room it has at the start. */
  lemma {:induction false} LifetimeBound(b: Bucket, trace: seq<Request>)
    requires Sound(b) && Ordered(b.lastLeak, trace)
    ensures Admitted(b, trace) <= b.size - b.stored
  {
    LevelOverTraces(b, trace);
  }

  /** A request for nothing at all is refused: the bucket is past its size. */
  predicate Shut(b: Bucket, read: real) {
    Level(b, read) > b.size
  }

  lemma {:induction false} ShutLater(b: Bucket, read: real, later: real)
    requires 0.0 <= b.rate && read <= later && Shut(b, read)
    ensures Shut(b, later)
  {
    MulMonotone(b.rate, Elapsed(b.lastLeak, read), Elapsed(b.lastLeak, later));
  }

  /** Once shut, always shut: every later request is refused, and the bucket never changes again. */
  lemma {:induction false} ShutForever(b: Bucket, start: real, trace: seq<Request>)
    requires Sound(b) && Shut(b, start) && Ordered(start, trace)
    ensures Run(b, trace) == b
    ensures forall i :: 0 <= i < |trace| ==> !Admits(Run(b, trace[..i]), trace[i])
    ensures trace != [] ==> start <= trace[|trace| - 1].stamp
  {
    if trace != [] {
      var before, r := trace[..|trace| - 1], trace[|trace| - 1];
      ShutForever(b, start, before);
      ShutLater(b, start, r.read);
      forall i | 0 <= i < |trace|
        ensures !Admits(Run(b, trace[..i]), trace[i])
      {
        if i < |before| {
          assert before[..i] == trace[..i] && before[i] == trace[i];
        }
      }
    }
  }

  /** When a bucket shuts: exactly after a pause in which the rate produces more than the room that was left. */
  lemma {:induction false} ShutsExactly(b: Bucket, read: real)
    requires Sound(b) && 0.0 < b.rate && b.lastLeak <= read
    ensures Shut(b, read) <==> Elapsed(b.lastLeak, read) > (b.size - b.stored) / b.rate
  {
    var pause, elapsed := (b.size - b.stored) / b.rate, Elapsed(b.lastLeak, read);
    assert b.rate * pause == b.size - b.stored;
    ScaleOrder(b.rate, elapsed, pause);
    var output := b.rate * elapsed;
    assert Level(b, read) == b.stored + output;
    assert Shut(b, read) <==> output > b.rate * pause;
  }

  // --- As intended and as written ---

  /** The textbook bucket drains over time. */
  predicate DrainingAdmits(b: Bucket, r: Request) {
    var drained := b.stored - Elapsed(b.lastLeak, r.read) * b.rate;
    (if drained <= 0.0 then 0.0 else drained) + r.need <= b.size
  }

  /** The two buckets agree on all requests at a moment exactly when nothing could have leaked by then. */
  lemma {:induction false} DrainingDiffersExactly(b: Bucket, read: real, stamp: real)
    requires Sound(b) && b.lastLeak <= read
    ensures (forall need :: 0.0 <= need ==>
               (Admits(b, Request(need, read, stamp)) <==> DrainingAdmits(b, Request(need, read, stamp))))
            <==> Elapsed(b.lastLeak, read) * b.rate == 0.0
  {
    MulMonotone(b.rate, 0.0, Elapsed(b.lastLeak, read));
    var room := Request(b.size - b.stored, read, stamp);
    assert DrainingAdmits(b, room);
    assert Admits(b, room) <==> Elapsed(b.lastLeak, read) * b.rate <= 0.0;
  }
}
