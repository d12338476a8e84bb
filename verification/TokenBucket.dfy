/**
 * The token bucket as written: refill lazily, debit, and only then clip to the capacity.
 */
module TokenBucket {
  import opened Clock

  datatype Bucket = Bucket(rate: real, capacity: real, tokens: real, lastRefill: real)

  datatype Request = Request(need: real, now: real)

  /** A new bucket is full, and its last refill is the zero time. */
  function NewBucket(rate: real, capacity: real): Bucket {
    Bucket(rate, capacity, capacity, 0.0)
  }

  /** What is there before clipping, should the request be admitted. */
  function Remaining(b: Bucket, r: Request): real {
    b.tokens + b.rate * Elapsed(b.lastRefill, r.now) - r.need
  }

  function Min(x: real, y: real): real {
    if x > y then y else x
  }

  predicate Admits(b: Bucket, r: Request) {
    Min(Remaining(b, r), b.capacity) >= 0.0
  }

  function After(b: Bucket, r: Request): Bucket {
    if Admits(b, r) then b.(tokens := Min(Remaining(b, r), b.capacity), lastRefill := r.now) else b
  }

  class TokenBucket {
    const rate: real
    const capacity: real
    var tokens: real
    var lastRefill: real

    ghost function State(): Bucket
      reads this
    {
      Bucket(rate, capacity, tokens, lastRefill)
    }

    constructor (rate: real, capacity: real)
      ensures State() == NewBucket(rate, capacity)
    {
      this.rate, this.capacity := rate, capacity;
      tokens, lastRefill := capacity, 0.0;
    }

    method Allow(needToken: real, now: real) returns (allowed: bool)
      modifies this
      ensures allowed == Admits(old(State()), Request(needToken, now))
      ensures State() == After(old(State()), Request(needToken, now))
    {
      var tmpToken := tokens + rate * Elapsed(lastRefill, now) - needToken;
      assert tmpToken == Remaining(State(), Request(needToken, now));
      if tmpToken > capacity {
        tmpToken := capacity;
      }
      if tmpToken >= 0.0 {
        tokens, lastRefill := tmpToken, now;
        return true;
      }
      return false;
    }
  }

  // --- Traces ---

  function Run(b: Bucket, trace: seq<Request>): Bucket {
    if trace == [] then b else After(Run(b, trace[..|trace| - 1]), trace[|trace| - 1])
  }

  function Admitted(b: Bucket, trace: seq<Request>): seq<Request> {
    if trace == [] then []
    else
      var before, r := trace[..|trace| - 1], trace[|trace| - 1];
      if Admits(Run(b, before), r) then Admitted(b, before) + [r] else Admitted(b, before)
  }

  function Total(trace: seq<Request>): real {
    if trace == [] then 0.0 else Total(trace[..|trace| - 1]) + trace[|trace| - 1].need
  }

  ghost predicate Ordered(start: real, trace: seq<Request>) {
    && (forall i :: 0 <= i < |trace| ==> start <= trace[i].now)
    && (forall i, j :: 0 <= i < j < |trace| ==> trace[i].now <= trace[j].now)
  }

  ghost predicate Sound(b: Bucket) {
    0.0 <= b.rate && 0.0 <= b.tokens <= b.capacity
  }

  /** Whether an admission gives every token since the last refill its place: no saturation, no clipping. */
  predicate KeepsAll(b: Bucket, r: Request) {
    && b.rate * Elapsed(b.lastRefill, r.now) == b.rate * (r.now - b.lastRefill)
    && Remaining(b, r) <= b.capacity
  }

  predicate NothingDiscarded(b: Bucket, trace: seq<Request>) {
    trace == [] ||
    (var before, r := trace[..|trace| - 1], trace[|trace| - 1];
     && NothingDiscarded(b, before)
     && (Admits(Run(b, before), r) ==> KeepsAll(Run(b, before), r)))
  }

  lemma {:induction false} RunSound(b: Bucket, trace: seq<Request>)
    requires Sound(b) && Ordered(b.lastRefill, trace)
    ensures var e := Run(b, trace);
            && Sound(e) && e.rate == b.rate && e.capacity == b.capacity
            && b.lastRefill <= e.lastRefill
            && (e.lastRefill == b.lastRefill || exists i :: 0 <= i < |trace| && trace[i].now == e.lastRefill)
  {
    if trace != [] {
      var before, r := trace[..|trace| - 1], trace[|trace| - 1];
      RunSound(b, before);
      var e := Run(b, before);
      assert r.now == trace[|trace| - 1].now;
      if e.lastRefill != b.lastRefill {
        var i :| 0 <= i < |before| && before[i].now == e.lastRefill;
        assert trace[i].now == e.lastRefill;
      }
    }
  }

  lemma {:induction false} ClockOf(b: Bucket, trace: seq<Request>)
    requires Sound(b) && Ordered(b.lastRefill, trace) && trace != []
    ensures Run(b, trace[..|trace| - 1]).lastRefill <= trace[|trace| - 1].now
  {
    var before := trace[..|trace| - 1];
    RunSound(b, before);
    if Run(b, before).lastRefill != b.lastRefill {
      var i :| 0 <= i < |before| && before[i].now == Run(b, before).lastRefill;
      assert trace[i].now <= trace[|trace| - 1].now;
    }
  }

  /** What was admitted and what is left against what there was and what was produced. */
  predicate Balanced(b: Bucket, e: Bucket, admitted: real, exactly: bool) {
    && admitted + e.tokens <= b.tokens + b.rate * (e.lastRefill - b.lastRefill)
    && (admitted + e.tokens == b.tokens + b.rate * (e.lastRefill - b.lastRefill) <==> exactly)
  }

  /** One admission against the balance of a run: it takes at most what it found and what came in. */
  lemma {:induction false} AdmissionBalance(b: Bucket, m: Bucket, r: Request, admitted: real, exactly: bool)
    requires Sound(m) && m.rate == b.rate && m.capacity == b.capacity && Admits(m, r) && m.lastRefill <= r.now
    requires Balanced(b, m, admitted, exactly)
    ensures Balanced(b, After(m, r), admitted + r.need, exactly && KeepsAll(m, r))
  {
    var produced := b.rate * (m.lastRefill - b.lastRefill);
    var elapsed, span := Elapsed(m.lastRefill, r.now), r.now - m.lastRefill;
    var gained, due := b.rate * elapsed, b.rate * span;
    MulMonotone(b.rate, elapsed, span);
    var all := b.rate * (r.now - b.lastRefill);
    assert produced + due == all by {
      Distribute(b.rate, m.lastRefill - b.lastRefill, r.now - m.lastRefill, r.now - b.lastRefill);
    }
    LinearBalance(admitted, b.tokens, m.tokens, produced, due, all, gained, r.need, b.capacity, After(m, r).tokens);
  }

  lemma {:induction false} LinearBalance(
    admitted: real, start: real, tokens: real, produced: real, due: real, all: real, gained: real,
    need: real, capacity: real, left: real)
    requires admitted + tokens <= start + produced
    requires produced + due == all && gained <= due
    requires left == Min(tokens + gained - need, capacity)
    ensures admitted + need + left <= start + all
    ensures admitted + need + left == start + all <==>
            admitted + tokens == start + produced && gained == due && tokens + gained - need <= capacity
  {
  }

  lemma {:induction false} TotalAppend(trace: seq<Request>, r: Request)
    ensures Total(trace + [r]) == Total(trace) + r.need
  {
    assert (trace + [r])[..|trace|] == trace;
  }

  /**
   * Conservation over any trace with a clock that does not run backwards, whatever is asked for: the
   * tokens stay between nothing and the capacity, what was admitted never exceeds what there was plus
   * what the rate produced, and it equals it exactly when no admission ever discarded a token.
   */
  lemma {:induction false} Conservation(b: Bucket, trace: seq<Request>)
    requires Sound(b) && Ordered(b.lastRefill, trace)
    ensures var e := Run(b, trace);
            && 0.0 <= e.tokens <= b.capacity
            && Balanced(b, e, Total(Admitted(b, trace)), NothingDiscarded(b, trace))
  {
    if trace != [] {
      var before, r := trace[..|trace| - 1], trace[|trace| - 1];
      Conservation(b, before);
      RunSound(b, before);
      ClockOf(b, trace);
      var m := Run(b, before);
      if Admits(m, r) {
        TotalAppend(Admitted(b, before), r);
        AdmissionBalance(b, m, r, Total(Admitted(b, before)), NothingDiscarded(b, before));
      }
    }
  }

  /** So from any admission on at most a bucketful plus the rate's output is admitted. */
  lemma {:induction false} WindowBound(b: Bucket, trace: seq<Request>)
    requires Sound(b) && Ordered(b.lastRefill, trace)
    ensures Total(Admitted(b, trace)) <= b.capacity + b.rate * (Run(b, trace).lastRefill - b.lastRefill)
  {
    Conservation(b, trace);
  }

  // --- Windows that start between admissions ---

  /** What a request at a moment finds: the refill is not clipped before the debit. */
  function Backlog(b: Bucket, now: real): real {
    b.tokens + b.rate * Elapsed(b.lastRefill, now)
  }

  /** Later requests find at most the rate's output more. */
  lemma {:induction false} BacklogGrowth(b: Bucket, from: real, now: real)
    requires Sound(b) && b.lastRefill <= from <= now
    ensures Backlog(b, now) <= Backlog(b, from) + b.rate * (now - from)
  {
    var early, late := Elapsed(b.lastRefill, from), Elapsed(b.lastRefill, now);
    Distribute(b.rate, early, now - from, early + (now - from));
    MulMonotone(b.rate, late, early + (now - from));
  }

  /** What a window admitted and left behind against what it found and what was produced in it. */
  predicate Within(b: Bucket, e: Bucket, from: real, admitted: real) {
    && 0.0 <= e.tokens && from <= e.lastRefill
    && admitted + e.tokens <= Backlog(b, from) + b.rate * (e.lastRefill - from)
  }

  lemma {:induction false} WindowStart(b: Bucket, from: real, r: Request)
    requires Sound(b) && b.lastRefill <= from <= r.now && Admits(b, r)
    ensures Within(b, After(b, r), from, 0.0 + r.need)
  {
    BacklogGrowth(b, from, r.now);
  }

  lemma {:induction false} WindowStep(b: Bucket, m: Bucket, from: real, admitted: real, r: Request)
    requires Sound(m) && m.rate == b.rate && m.lastRefill <= r.now && Admits(m, r)
    requires Within(b, m, from, admitted)
    ensures Within(b, After(m, r), from, admitted + r.need)
  {
    var none, before, since := Elapsed(m.lastRefill, m.lastRefill), m.lastRefill - from, r.now - m.lastRefill;
    BacklogGrowth(m, m.lastRefill, r.now);
    assert m.rate * none == 0.0;
    Distribute(m.rate, before, since, r.now - from);
  }

  lemma {:induction false} StillOrdered(start: real, b: Bucket, trace: seq<Request>)
    requires b.lastRefill <= start && Ordered(start, trace)
    ensures Ordered(b.lastRefill, trace)
  {
  }

  /** The end of a window: the last admission in it, or its start if there was none. */
  function WindowEnd(b: Bucket, from: real, trace: seq<Request>): real {
    if Admitted(b, trace) == [] then from else Run(b, trace).lastRefill
  }

  /**
   * From any moment at all, what is admitted and what is left after it come to at most what the first
   * request could find at that moment, plus the rate's output.
   */
  lemma {:induction false} WindowFrom(b: Bucket, from: real, trace: seq<Request>)
    requires Sound(b) && b.lastRefill <= from && Ordered(from, trace)
    ensures if Admitted(b, trace) == [] then Run(b, trace) == b
            else Within(b, Run(b, trace), from, Total(Admitted(b, trace)))
  {
    if trace != [] {
      var before, r := trace[..|trace| - 1], trace[|trace| - 1];
      WindowFrom(b, from, before);
      StillOrdered(from, b, trace);
      RunSound(b, before);
      ClockOf(b, trace);
      if Admits(Run(b, before), r) {
        WindowAppend(b, from, Run(b, before), Admitted(b, before), r);
      }
    }
  }

  lemma {:induction false} WindowAppend(b: Bucket, from: real, m: Bucket, admitted: seq<Request>, r: Request)
    requires Sound(b) && b.lastRefill <= from <= r.now && Admits(m, r)
    requires Sound(m) && m.rate == b.rate && m.lastRefill <= r.now
    requires if admitted == [] then m == b else Within(b, m, from, Total(admitted))
    ensures Within(b, After(m, r), from, Total(admitted + [r]))
  {
    TotalAppend(admitted, r);
    if admitted == [] {
      WindowStart(b, from, r);
    } else {
      WindowStep(b, m, from, Total(admitted), r);
    }
  }

  /** The limiter's usual promise: no window, however requests are spread over it, beats a full bucket. */
  ghost predicate AtMostABucketful(b: Bucket, from: real) {
    forall trace :: Ordered(from, trace) ==> BucketfulAtMost(b, from, trace)
  }

  predicate BucketfulAtMost(b: Bucket, from: real, trace: seq<Request>) {
    Fits(b, from, Total(Admitted(b, trace)), WindowEnd(b, from, trace))
  }

  predicate Fits(b: Bucket, from: real, admitted: real, end: real) {
    admitted <= b.capacity + b.rate * (end - from)
  }

  /** A single request at one moment, should it be admitted. */
  lemma {:induction false} AloneAdmitted(b: Bucket, r: Request)
    requires Admits(b, r)
    ensures Admitted(b, [r]) == [r] && Total([r]) == r.need && Run(b, [r]).lastRefill == r.now
  {
    assert [r][..0] == [];
    assert Run(b, [r][..0]) == b && Admitted(b, [r][..0]) == [];
    TotalAppend([], r);
  }

  lemma {:induction false} FitsWithin(b: Bucket, e: Bucket, from: real, admitted: real)
    requires Within(b, e, from, admitted) && Backlog(b, from) <= b.capacity
    ensures Fits(b, from, admitted, e.lastRefill)
  {
  }

  lemma {:induction false} NothingFits(b: Bucket, from: real, trace: seq<Request>)
    requires 0.0 <= b.capacity && Admitted(b, trace) == []
    ensures BucketfulAtMost(b, from, trace)
  {
    var span := WindowEnd(b, from, trace) - from;
    assert span == 0.0 && b.rate * span == 0.0;
  }

  lemma {:induction false} SmallBacklogKeeps(b: Bucket, from: real, trace: seq<Request>)
    requires Sound(b) && b.lastRefill <= from && Ordered(from, trace)
    requires Backlog(b, from) <= b.capacity
    ensures BucketfulAtMost(b, from, trace)
  {
    if Admitted(b, trace) == [] {
      NothingFits(b, from, trace);
    } else {
      WindowFrom(b, from, trace);
      FitsWithin(b, Run(b, trace), from, Total(Admitted(b, trace)));
    }
  }

  lemma {:induction false} TooMuchAlone(b: Bucket, r: Request)
    requires Admits(b, r) && r.need > b.capacity
    ensures !BucketfulAtMost(b, r.now, [r])
  {
    AloneAdmitted(b, r);
    var span := WindowEnd(b, r.now, [r]) - r.now;
    assert b.rate * span == 0.0;
  }

  /** This bucket keeps that promise exactly while its tokens and the refill so far fit into the capacity. */
  lemma {:induction false} BucketfulExactly(b: Bucket, from: real)
    requires Sound(b) && b.lastRefill <= from
    ensures AtMostABucketful(b, from) <==> b.tokens + b.rate * Elapsed(b.lastRefill, from) <= b.capacity
  {
    if Backlog(b, from) <= b.capacity {
      forall trace | Ordered(from, trace)
        ensures BucketfulAtMost(b, from, trace)
      {
        SmallBacklogKeeps(b, from, trace);
      }
    } else {
      var r := Request(Backlog(b, from), from);
      assert Ordered(from, [r]);
      TooMuchAlone(b, r);
    }
  }

  /** What a single request may take at a moment, and when that is more than a bucketful. */
  lemma {:induction false} BurstExactly(b: Bucket, now: real)
    requires Sound(b) && b.lastRefill <= now
    ensures forall need :: Admits(b, Request(need, now)) <==> need <= Backlog(b, now)
    ensures (forall need :: Admits(b, Request(need, now)) ==> need <= b.capacity) <==>
            b.tokens + b.rate * Elapsed(b.lastRefill, now) <= b.capacity
  {
    assert Admits(b, Request(Backlog(b, now), now));
  }

  /** A bucket of one token, refilled at one a second, that gives away 101 at once. */
  lemma {:induction false} IdleBucketBursts()
    ensures var b := Bucket(1.0, 1.0, 1.0, 0.0);
            var trace := [Request(101.0, 100.0)];
            Total(Admitted(b, trace)) == 101.0 && WindowEnd(b, 100.0, trace) == 100.0
  {
    AloneAdmitted(Bucket(1.0, 1.0, 1.0, 0.0), Request(101.0, 100.0));
  }

  /** Denied requests leave no trace: dropping them all changes neither the bucket nor any other decision. */
  lemma {:induction false} DeniedRequestsVanish(b: Bucket, trace: seq<Request>)
    ensures Run(b, Admitted(b, trace)) == Run(b, trace)
    ensures Admitted(b, Admitted(b, trace)) == Admitted(b, trace)
  {
    if trace != [] {
      var before, r := trace[..|trace| - 1], trace[|trace| - 1];
      DeniedRequestsVanish(b, before);
      var kept := Admitted(b, before);
      assert (kept + [r])[..|kept|] == kept;
    }
  }

  /** A batch of requests at one instant, and its sum. */
  function AtOnce(needs: seq<real>, now: real): seq<Request> {
    seq(|needs|, i requires 0 <= i < |needs| => Request(needs[i], now))
  }

  function Sum(needs: seq<real>): real {
    if needs == [] then 0.0 else Sum(needs[..|needs| - 1]) + needs[|needs| - 1]
  }

  /**
   * A non-empty batch admitted one by one at one instant is also admitted as a single request for its
   * sum, which leaves at least as many tokens behind.
   */
  lemma {:induction false} BatchAsOne(b: Bucket, needs: seq<real>, now: real)
    requires Sound(b) && b.lastRefill <= now && needs != []
    requires forall i :: 0 <= i < |needs| ==> needs[i] >= 0.0
    requires Admitted(b, AtOnce(needs, now)) == AtOnce(needs, now)
    ensures var whole := Request(Sum(needs), now);
            && Admits(b, whole)
            && After(b, whole).tokens >= Run(b, AtOnce(needs, now)).tokens
            && After(b, whole).lastRefill == Run(b, AtOnce(needs, now)).lastRefill == now
  {
    var trace := AtOnce(needs, now);
    var n := |needs| - 1;
    assert trace[..n] == AtOnce(needs[..n], now);
    AllAdmittedPrefix(b, trace);
    if n == 0 {
      assert Sum(needs) == Sum(needs[..0]) + needs[0] == needs[0];
      assert Run(b, trace) == After(Run(b, trace[..0]), trace[0]);
    } else {
      BatchAsOne(b, needs[..n], now);
      var m := Run(b, AtOnce(needs[..n], now));
      RunSound(b, AtOnce(needs[..n], now));
      NoTimePasses(m, needs[n], now);
      BatchStep(b, m, Sum(needs[..n]), needs[n], now);
    }
  }

  lemma {:induction false} NoTimePasses(m: Bucket, need: real, now: real)
    requires Sound(m) && m.lastRefill == now
    ensures Remaining(m, Request(need, now)) == m.tokens - need
  {
  }

  lemma {:induction false} BatchStep(b: Bucket, m: Bucket, sum: real, need: real, now: real)
    requires Sound(m) && m.capacity == b.capacity && m.lastRefill == now && need >= 0.0
    requires Admits(b, Request(sum, now)) && After(b, Request(sum, now)).tokens >= m.tokens
    requires Admits(m, Request(need, now))
    ensures Admits(b, Request(sum + need, now))
    ensures After(b, Request(sum + need, now)).tokens >= After(m, Request(need, now)).tokens
  {
    NoTimePasses(m, need, now);
    assert Remaining(b, Request(sum + need, now)) == Remaining(b, Request(sum, now)) - need;
  }

  lemma {:induction false} AdmittedLength(b: Bucket, trace: seq<Request>)
    ensures |Admitted(b, trace)| <= |trace|
  {
    if trace != [] {
      AdmittedLength(b, trace[..|trace| - 1]);
    }
  }

  lemma {:induction false} AllAdmittedPrefix(b: Bucket, trace: seq<Request>)
    requires trace != [] && Admitted(b, trace) == trace
    ensures Admitted(b, trace[..|trace| - 1]) == trace[..|trace| - 1]
    ensures Admits(Run(b, trace[..|trace| - 1]), trace[|trace| - 1])
  {
    AdmittedLength(b, trace[..|trace| - 1]);
  }

  /**
   * When a request that is denied now will do: exactly from the moment the rate has produced what is
   * missing, provided that takes no longer than the longest duration there is.
   */
  lemma {:induction false} AdmittedFromExactly(b: Bucket, need: real, now: real)
    requires Sound(b) && b.rate > 0.0 && b.lastRefill <= now
    requires need >= b.tokens
    ensures Admits(b, Request(need, now)) <==>
            now >= b.lastRefill + (need - b.tokens) / b.rate && (need - b.tokens) / b.rate <= MAX_DURATION
  {
    var wait := (need - b.tokens) / b.rate;
    var elapsed := Elapsed(b.lastRefill, now);
    assert b.rate * wait == need - b.tokens;
    ScaleOrder(b.rate, wait, elapsed);
    assert Admits(b, Request(need, now)) <==> b.rate * elapsed >= b.rate * wait;
  }

  // --- As intended and as written ---

  /** The textbook bucket clips the refill first and debits then. */
  function Available(b: Bucket, now: real): real {
    Min(b.tokens + b.rate * Elapsed(b.lastRefill, now), b.capacity)
  }

  /**
   * The order matters exactly for requests above the capacity that the unclipped refill covers: this
   * bucket admits them, and the textbook bucket never does.
   */
  lemma {:induction false} ClipAfterDebitDecides(b: Bucket, r: Request)
    requires Sound(b)
    ensures (Admits(b, r) <==> Available(b, r.now) >= r.need) <==>
            !(b.capacity < r.need <= b.tokens + b.rate * Elapsed(b.lastRefill, r.now))
  {
  }

  /** Ten tokens after a minute at one a second, from a bucket of five. */
  lemma {:induction false} TextbookDeniesThis()
    ensures var b, r := Bucket(1.0, 5.0, 0.0, 0.0), Request(10.0, 60.0);
            Admits(b, r) && Available(b, r.now) < r.need
  {
  }

  /**
   * And it forgives the debit out of any overflow: a request leaves the textbook's residue exactly when
   * nothing overflowed or nothing was asked.
   */
  lemma {:induction false} ClipAfterDebitForgives(b: Bucket, r: Request)
    requires Sound(b) && Admits(b, r) && r.need >= 0.0
    ensures After(b, r).tokens == Available(b, r.now) - r.need <==>
            b.tokens + b.rate * Elapsed(b.lastRefill, r.now) <= b.capacity || r.need == 0.0
  {
  }

  /**
   * A new bucket believes it has been refilling since the zero time. The clock has been past the longest
   * duration for centuries, so its first request may take that much output on top of a full bucket,
   * whatever the hour, and the textbook bucket's may take the capacity.
   */
  lemma {:induction false} FreshBucketAdmitsExactly(rate: real, capacity: real, r: Request)
    requires 0.0 <= rate && 0.0 <= capacity
    ensures Admits(NewBucket(rate, capacity), r) <==> r.need <= capacity + rate * Elapsed(0.0, r.now)
    ensures r.now >= MAX_DURATION ==>
              (Admits(NewBucket(rate, capacity), r) <==> r.need <= capacity + rate * MAX_DURATION)
    ensures r.now >= MAX_DURATION ==> Available(NewBucket(rate, capacity), r.now) == capacity
  {
    if r.now >= MAX_DURATION {
      var longest := Elapsed(0.0, r.now);
      assert longest == MAX_DURATION;
      MulMonotone(rate, 0.0, longest);
    }
  }
}
