/** The broadcast admission budget: a token bucket with per-class reserves. */
module BroadcastBudget {
  import opened Prelude

  datatype TrafficClass = Critical | Forwarding | Host

  datatype Admission = Admit | Defer(retryIn: Duration)

  /** The tunables a budget is asked with. */
  datatype Params = Params(capacity: u8, interval: Duration, criticalReserve: u8, forwardingReserve: u8)

  datatype Bucket = Bucket(tokens: nat, last: Instant)

  /** What a class must leave in the bucket. */
  function Floor(class_: TrafficClass, p: Params): nat {
    match class_
    case Critical => 0
    case Forwarding => p.criticalReserve
    case Host => p.criticalReserve + p.forwardingReserve
  }

  /** Regenerate one token per interval, capped at the capacity, moving the clock by whole
      tokens so that the remainder of the elapsed time is kept. */
  function Refill(b: Bucket, now: Instant, p: Params): Bucket {
    if p.interval == 0 || b.tokens >= p.capacity then
      Bucket(p.capacity, now)
    else
      var elapsed := if now >= b.last then now - b.last else 0;
      var accrued: nat := Quotient(elapsed, p.interval);
      var headroom := p.capacity - b.tokens;
      var added := if accrued <= headroom then accrued else headroom;
      if accrued == 0 then b
      else if b.tokens + added >= p.capacity then Bucket(p.capacity, now)
      else Bucket(b.tokens + added, After(b.last, Scale(p.interval, added)))
  }

  /** What a class is told by a bucket that was just refilled. */
  function Answer(b: Bucket, class_: TrafficClass, p: Params): Admission {
    if class_.Critical? || b.tokens > Floor(class_, p) then Admit
    else Defer(Scale(p.interval, Floor(class_, p) + 1 - b.tokens))
  }

  /** A critical broadcast draws nothing. */
  function Draw(b: Bucket, class_: TrafficClass, p: Params): Bucket {
    if !class_.Critical? && Answer(b, class_, p).Admit? then b.(tokens := b.tokens - 1) else b
  }

  class Budget {
    var tokens: nat
    var lastRefill: Instant

    function State(): Bucket
      reads this
    {
      Bucket(tokens, lastRefill)
    }

    constructor (initialTokens: u8)
      ensures State() == Bucket(initialTokens, 0)
    {
      tokens, lastRefill := initialTokens, 0;
    }

    method RefillTokens(now: Instant, p: Params)
      modifies this
      ensures State() == Refill(old(State()), now, p)
    {
      if p.interval == 0 || tokens >= p.capacity {
        tokens, lastRefill := p.capacity, now;
        return;
      }
      var elapsed := if now >= lastRefill then now - lastRefill else 0;
      var accrued := Quotient(elapsed, p.interval);
      if accrued == 0 {
        return;
      }
      var headroom := p.capacity - tokens;
      var added := if accrued <= headroom then accrued else headroom;
      tokens := tokens + added;
      if tokens >= p.capacity {
        tokens, lastRefill := p.capacity, now;
      } else {
        lastRefill := After(lastRefill, Scale(p.interval, added));
      }
    }

    method Take(class_: TrafficClass, now: Instant, p: Params) returns (admission: Admission)
      modifies this
      ensures admission == Answer(Refill(old(State()), now, p), class_, p)
      ensures State() == Draw(Refill(old(State()), now, p), class_, p)
    {
      RefillTokens(now, p);
      if class_ == Critical {
        admission := Admit;
      } else {
        var floor := Floor(class_, p);
        if tokens > floor {
          tokens := tokens - 1;
          admission := Admit;
        } else {
          admission := Defer(Scale(p.interval, floor + 1 - tokens));
        }
      }
    }
  }

  // ---------------------------------------------------------------- what a refill computes

  lemma ClockAdvanceFits(last: Instant, now: Instant, interval: Duration)
    requires last <= now && interval > 0
    ensures var whole := Quotient(now - last, interval);
      After(last, Scale(interval, whole)) == last + Times(interval, whole)
  {
    QuotientBounds(now - last, interval);
  }

  /** Closed form of a refill while the clock does not run backwards. */
  lemma RefillClosedForm(b: Bucket, now: Instant, p: Params)
    requires b.last <= now && p.interval > 0 && b.tokens <= p.capacity
    ensures var accrued, r := Quotient(now - b.last, p.interval), Refill(b, now, p);
      if b.tokens + accrued >= p.capacity then r == Bucket(p.capacity, now)
      else r.tokens == b.tokens + accrued && r.last == b.last + Times(p.interval, accrued)
  {
    QuotientBounds(now - b.last, p.interval);
    ClockAdvanceFits(b.last, now, p.interval);
  }

  /** After a refill the bucket is full as of now, or less than one interval behind. */
  lemma RefillIsCurrent(b: Bucket, now: Instant, p: Params)
    requires b.last <= now && p.interval > 0
    ensures var r := Refill(b, now, p);
      && r.tokens <= p.capacity && r.last <= now
      && (r.tokens == p.capacity ==> r.last == now)
      && (r.tokens < p.capacity ==> now - r.last < p.interval)
  {
    if b.tokens <= p.capacity {
      RefillClosedForm(b, now, p);
      QuotientBounds(now - b.last, p.interval);
    }
  }

  /** Time split at a whole number of intervals accrues the same on both sides of the split. */
  lemma AccrualSplits(early: nat, late: nat, i: nat)
    requires i > 0 && early <= late
    ensures var a := Quotient(early, i);
      && Times(i, a) <= early && a <= Quotient(late, i)
      && Quotient(late - Times(i, a), i) == Quotient(late, i) - a
      && Times(i, a) + Times(i, Quotient(late, i) - a) == Times(i, Quotient(late, i))
  {
    var a := Quotient(early, i);
    QuotientBounds(early, i);
    QuotientMonotone(early, late, i);
    QuotientShift(late, a, i);
    TimesAdds(i, a, Quotient(late, i) - a);
  }

  /** A refill without the clamps: every whole interval is a token. */
  function Accrue(b: Bucket, now: Instant, p: Params): Bucket
    requires b.last <= now && p.interval > 0
  {
    var accrued: nat := Quotient(now - b.last, p.interval);
    if b.tokens + accrued >= p.capacity then Bucket(p.capacity, now)
    else QuotientBounds(now - b.last, p.interval); Bucket(b.tokens + accrued, b.last + Times(p.interval, accrued))
  }

  lemma RefillAccrues(b: Bucket, now: Instant, p: Params)
    requires b.last <= now && p.interval > 0 && b.tokens <= p.capacity
    ensures Refill(b, now, p) == Accrue(b, now, p)
  {
    RefillClosedForm(b, now, p);
  }

  lemma AccrueComposes(b: Bucket, s: Instant, t: Instant, p: Params)
    requires b.last <= s <= t && p.interval > 0
    requires b.tokens + Quotient(s - b.last, p.interval) < p.capacity
    ensures var r := Accrue(b, s, p); r.last <= s && Accrue(r, t, p) == Accrue(b, t, p)
  {
    AccrualSplits(s - b.last, t - b.last, p.interval);
    var r := Accrue(b, s, p);
    assert t - r.last == t - b.last - Times(p.interval, Quotient(s - b.last, p.interval));
  }

  /** The case of a first refill that leaves the bucket short of full. */
  lemma PartialRefillComposes(b: Bucket, r: Bucket, s: Instant, t: Instant, p: Params)
    requires b.last <= s <= t && p.interval > 0 && r == Refill(b, s, p)
    requires b.tokens + Quotient(s - b.last, p.interval) < p.capacity
    ensures Refill(r, t, p) == Refill(b, t, p)
  {
    RefillAccrues(b, s, p);
    AccrueComposes(b, s, t, p);
    RefillAccrues(r, t, p);
    RefillAccrues(b, t, p);
  }

  /** Refilling at s and then at t is refilling at t: intermediate refills are invisible. */
  lemma RefillComposes(b: Bucket, s: Instant, t: Instant, p: Params)
    requires b.last <= s <= t
    ensures Refill(b, s, p).last <= s
    ensures Refill(Refill(b, s, p), t, p) == Refill(b, t, p)
  {
    if p.interval > 0 && b.tokens < p.capacity {
      RefillIsCurrent(b, s, p);
      if b.tokens + Quotient(s - b.last, p.interval) < p.capacity {
        PartialRefillComposes(b, Refill(b, s, p), s, t, p);
      } else {
        RefillClosedForm(b, s, p);
        RefillClosedForm(b, t, p);
        QuotientMonotone(s - b.last, t - b.last, p.interval);
      }
    }
  }

  // ---------------------------------------------------------------- runs

  datatype Ask = Ask(class_: TrafficClass, now: Instant)

  /** Asks arrive in time order, none before `from`. */
  predicate InOrder(asks: seq<Ask>, from: nat) {
    && (forall i :: 0 <= i < |asks| ==> from <= asks[i].now)
    && (forall i, j :: 0 <= i < j < |asks| ==> asks[i].now <= asks[j].now)
  }

  function Step(b: Bucket, ask: Ask, p: Params): Bucket {
    Draw(Refill(b, ask.now, p), ask.class_, p)
  }

  function Answered(b: Bucket, ask: Ask, p: Params): Admission {
    Answer(Refill(b, ask.now, p), ask.class_, p)
  }

  /** The bucket after a run. */
  function Final(b: Bucket, asks: seq<Ask>, p: Params): Bucket
    decreases |asks|
  {
    if asks == [] then b else Final(Step(b, asks[0], p), asks[1..], p)
  }

  /** The answers to every host and forwarding ask of a run, in order. */
  function SharedAnswers(b: Bucket, asks: seq<Ask>, p: Params): seq<Admission>
    decreases |asks|
  {
    if asks == [] then []
    else (if asks[0].class_.Critical? then [] else [Answered(b, asks[0], p)])
         + SharedAnswers(Step(b, asks[0], p), asks[1..], p)
  }

  function WithoutCritical(asks: seq<Ask>): seq<Ask> {
    if asks == [] then []
    else (if asks[0].class_.Critical? then [] else [asks[0]]) + WithoutCritical(asks[1..])
  }

  lemma StepKeepsClock(b: Bucket, ask: Ask, p: Params)
    requires b.last <= ask.now
    ensures Step(b, ask, p).last <= ask.now
  {
    if p.interval > 0 {
      RefillIsCurrent(b, ask.now, p);
    }
  }

  lemma CriticalUnfolds(b: Bucket, asks: seq<Ask>, p: Params)
    requires asks != [] && asks[0].class_.Critical?
    ensures SharedAnswers(b, asks, p) == SharedAnswers(Refill(b, asks[0].now, p), asks[1..], p)
    ensures WithoutCritical(asks) == WithoutCritical(asks[1..])
  {
    var rest := SharedAnswers(Refill(b, asks[0].now, p), asks[1..], p);
    assert [] + rest == rest;
    assert [] + WithoutCritical(asks[1..]) == WithoutCritical(asks[1..]);
  }

  lemma SharedUnfolds(b: Bucket, asks: seq<Ask>, p: Params)
    requires asks != [] && !asks[0].class_.Critical?
    ensures var ask, rest := asks[0], asks[1..];
      && SharedAnswers(b, asks, p) == [Answered(b, ask, p)] + SharedAnswers(Step(b, ask, p), rest, p)
      && SharedAnswers(b, WithoutCritical(asks), p)
         == [Answered(b, ask, p)] + SharedAnswers(Step(b, ask, p), WithoutCritical(rest), p)
  {
    var kept := WithoutCritical(asks);
    assert kept[0] == asks[0] && kept[1..] == WithoutCritical(asks[1..]);
  }

  /** The simulation behind non-interference: the bucket that saw the critical asks is the
      other one refilled at some earlier moment. */
  lemma {:induction false} CriticalSimulation(b: Bucket, s: Instant, asks: seq<Ask>, p: Params)
    requires b.last <= s && InOrder(asks, s)
    ensures SharedAnswers(Refill(b, s, p), asks, p) == SharedAnswers(b, WithoutCritical(asks), p)
    decreases |asks|
  {
    if asks != [] {
      var ask, rest := asks[0], asks[1..];
      RefillComposes(b, s, ask.now, p);
      if ask.class_.Critical? {
        CriticalUnfolds(Refill(b, s, p), asks, p);
        CriticalSimulation(b, ask.now, rest, p);
      } else {
        SharedUnfolds(Refill(b, s, p), asks, p);
        SharedUnfolds(b, asks, p);
        StepKeepsClock(b, ask, p);
        CriticalNonInterference(Step(b, ask, p), rest, p);
      }
    }
  }

  /** Deleting every critical ask from a run leaves each host and forwarding answer, retry
      times included, as it was. */
  lemma {:induction false} CriticalNonInterference(b: Bucket, asks: seq<Ask>, p: Params)
    requires InOrder(asks, b.last)
    ensures SharedAnswers(b, asks, p) == SharedAnswers(b, WithoutCritical(asks), p)
    decreases |asks|
  {
    if asks != [] {
      var ask, rest := asks[0], asks[1..];
      if ask.class_.Critical? {
        CriticalUnfolds(b, asks, p);
        CriticalSimulation(b, ask.now, rest, p);
      } else {
        SharedUnfolds(b, asks, p);
        StepKeepsClock(b, ask, p);
        CriticalNonInterference(Step(b, ask, p), rest, p);
      }
    }
  }

  /** Host and forwarding admissions over a run. */
  function SharedAdmissions(b: Bucket, asks: seq<Ask>, p: Params): nat
    decreases |asks|
  {
    if asks == [] then 0
    else (if !asks[0].class_.Critical? && Answered(b, asks[0], p).Admit? then 1 else 0)
         + SharedAdmissions(Step(b, asks[0], p), asks[1..], p)
  }

  /** A refill never adds more tokens than the time it consumes is worth. */
  lemma RefillSpendsTime(b: Bucket, now: Instant, end: Instant, p: Params)
    requires b.last <= now <= end && p.interval > 0 && b.tokens <= p.capacity
    ensures var r := Refill(b, now, p);
      r.last <= end && r.tokens + Quotient(end - r.last, p.interval) <= b.tokens + Quotient(end - b.last, p.interval)
  {
    RefillClosedForm(b, now, p);
    RefillIsCurrent(b, now, p);
    var accrued := Quotient(now - b.last, p.interval);
    QuotientBounds(now - b.last, p.interval);
    QuotientShift(end - b.last, accrued, p.interval);
    if b.tokens + accrued >= p.capacity {
      QuotientMonotone(end - now, end - b.last - Times(p.interval, accrued), p.interval);
    }
  }

  lemma {:induction false} AdmissionsBounded(b: Bucket, asks: seq<Ask>, end: Instant, p: Params)
    requires InOrder(asks, b.last) && p.interval > 0 && b.tokens <= p.capacity && b.last <= end
    requires forall i :: 0 <= i < |asks| ==> asks[i].now <= end
    ensures SharedAdmissions(b, asks, p) <= b.tokens + Quotient(end - b.last, p.interval)
    decreases |asks|
  {
    if asks != [] {
      RefillSpendsTime(b, asks[0].now, end, p);
      RefillIsCurrent(b, asks[0].now, p);
      AdmissionsBounded(Step(b, asks[0], p), asks[1..], end, p);
    }
  }

  lemma {:induction false} RunKeepsClock(b: Bucket, asks: seq<Ask>, to: Instant, p: Params)
    requires InOrder(asks, b.last) && b.last <= to
    requires forall i :: 0 <= i < |asks| ==> asks[i].now <= to
    ensures Final(b, asks, p).last <= to
    decreases |asks|
  {
    if asks != [] {
      StepKeepsClock(b, asks[0], p);
      RunKeepsClock(Step(b, asks[0], p), asks[1..], to, p);
    }
  }

  /** The bound for asks that start at a given moment, whatever the bucket holds then. */
  lemma WindowBound(b: Bucket, asks: seq<Ask>, end: Instant, p: Params)
    requires asks != [] && b.last <= asks[0].now <= end && InOrder(asks, asks[0].now) && p.interval > 0
    requires forall i :: 0 <= i < |asks| ==> asks[i].now <= end
    ensures SharedAdmissions(b, asks, p) <= p.capacity + Quotient(end - asks[0].now, p.interval)
  {
    var first := asks[0].now;
    var r := Refill(b, first, p);
    RefillIsCurrent(b, first, p);
    RefillComposes(b, first, first, p);
    assert SharedAdmissions(r, asks, p) == SharedAdmissions(b, asks, p);
    AdmissionsBounded(r, asks, end, p);
    if r.tokens < p.capacity {
      QuotientMonotone(end - r.last, end - first + p.interval, p.interval);
    }
  }

  lemma InOrderSplits(history: seq<Ask>, asks: seq<Ask>)
    requires InOrder(history + asks, 0) && asks != []
    ensures InOrder(history, 0) && InOrder(asks, asks[0].now)
    ensures forall i :: 0 <= i < |history| ==> history[i].now <= asks[0].now
    ensures forall i :: 0 <= i < |asks| ==> asks[i].now <= asks[|asks| - 1].now
  {
    var all, n := history + asks, |history|;
    forall i | 0 <= i < n ensures history[i] == all[i] && history[i].now <= asks[0].now {
      assert all[i].now <= all[n].now;
    }
    forall i, j | 0 <= i < j < |asks| ensures asks[i].now <= asks[j].now {
      assert asks[i] == all[n + i] && asks[j] == all[n + j];
    }
    forall i, j | 0 <= i < j < n ensures history[i].now <= history[j].now {
      assert history[i] == all[i] && history[j] == all[j];
    }
  }

  /** Rate bound: after any history, the asks of any window of length `window` see at most
      capacity + window / interval host and forwarding admissions. */
  lemma RateBound(initial: u8, history: seq<Ask>, asks: seq<Ask>, window: nat, p: Params)
    requires InOrder(history + asks, 0) && p.interval > 0
    requires forall i, j :: 0 <= i < j < |asks| ==> asks[j].now - asks[i].now <= window
    ensures SharedAdmissions(Final(Bucket(initial, 0), history, p), asks, p) <= p.capacity + window / p.interval
  {
    if asks != [] {
      var first, end := asks[0].now, asks[|asks| - 1].now;
      InOrderSplits(history, asks);
      RunKeepsClock(Bucket(initial, 0), history, first, p);
      WindowBound(Final(Bucket(initial, 0), history, p), asks, end, p);
      QuotientMonotone(end - first, window, p.interval);
    }
    QuotientIsDivision(window, p.interval);
  }

  // ---------------------------------------------------------------- when a refused class is admitted

  /** The first instant a bucket just refilled can serve a class it is short of, counted from
      its last whole token. */
  function FreesAt(r: Bucket, class_: TrafficClass, p: Params): nat
    requires r.tokens <= Floor(class_, p)
  {
    r.last + Times(p.interval, Floor(class_, p) + 1 - r.tokens)
  }

  /** A refused class is admitted again exactly from the moment its missing tokens have
      accrued, measured from the last whole token and not from the refusal; and a class
      whose floor reaches the capacity never is. */
  lemma AdmittedExactlyFrom(b: Bucket, class_: TrafficClass, now: Instant, t: Instant, p: Params)
    requires b.last <= now <= t && !class_.Critical?
    requires Answered(b, Ask(class_, now), p).Defer?
    ensures Answered(Step(b, Ask(class_, now), p), Ask(class_, t), p).Admit?
            <==> p.capacity > Floor(class_, p) && FreesAt(Refill(b, now, p), class_, p) <= t
  {
    var r := Refill(b, now, p);
    if p.interval > 0 {
      RefillIsCurrent(b, now, p);
      RefillClosedForm(r, t, p);
      FitsIffQuotient(t - r.last, Floor(class_, p) + 1 - r.tokens, p.interval);
    }
  }

  /** The advertised retry time is an upper bound, less than one interval late: admitted from
      it on, still refused up to one interval before it. */
  lemma RetryBracket(b: Bucket, class_: TrafficClass, now: Instant, t: Instant, p: Params)
    requires b.last <= now <= t && !class_.Critical? && p.capacity > Floor(class_, p)
    requires Answered(b, Ask(class_, now), p).Defer?
    ensures var retryIn := Answered(b, Ask(class_, now), p).retryIn;
      var again := Answered(Step(b, Ask(class_, now), p), Ask(class_, t), p);
      (t >= now + retryIn ==> again.Admit?) && (t <= now + retryIn - p.interval ==> again.Defer?)
  {
    AdmittedExactlyFrom(b, class_, now, t, p);
    RefillIsCurrent(b, now, p);
  }

  lemma WholeIntervals(a: nat, i: nat)
    requires i > 0
    ensures Times(i, Quotient(a, i)) <= a
    ensures Times(i, Quotient(a, i)) == a <==> a % i == 0
  {
    QuotientBounds(a, i);
    QuotientIsDivision(a, i);
    TimesIsProduct(i, a / i);
    assert a == i * (a / i) + a % i;
  }

  /** The missing tokens accrue before the advertised time exactly when the refusal did not
      come a whole number of intervals after the bucket's clock. */
  lemma FreesEarlyIff(b: Bucket, class_: TrafficClass, now: Instant, p: Params)
    requires b.last <= now && !class_.Critical? && p.capacity > Floor(class_, p)
    requires Answered(b, Ask(class_, now), p).Defer?
    requires FreesAt(Refill(b, now, p), class_, p) <= MAX_INSTANT
    ensures var free := FreesAt(Refill(b, now, p), class_, p);
      && Answered(Step(b, Ask(class_, now), p), Ask(class_, free), p).Admit?
      && p.interval > 0
      && (free < now + Answered(b, Ask(class_, now), p).retryIn <==> (now - b.last) % p.interval != 0)
  {
    RefillIsCurrent(b, now, p);
    RefillClosedForm(b, now, p);
    WholeIntervals(now - b.last, p.interval);
    AdmittedExactlyFrom(b, class_, now, FreesAt(Refill(b, now, p), class_, p), p);
  }

  /** Refused halfway through an interval of ten with a retry time of ten, and admitted after
      five. */
  lemma TokenFreesEarly()
    ensures var p, b := Params(1, 10, 0, 0), Bucket(0, 0);
      && Answered(b, Ask(Host, 5), p) == Defer(10)
      && Answered(Step(b, Ask(Host, 5), p), Ask(Host, 10), p) == Admit
  {
    var p, b := Params(1, 10, 0, 0), Bucket(0, 0);
    assert Quotient(5, 10) == 0 && Quotient(10, 10) == 1;
    assert Times(10, 1) == 10;
  }

  // ---------------------------------------------------------------- reserves

  /** A class takes tokens only above its own floor, and a refill never goes below a level
      the capacity allows. */
  lemma StepKeepsLevel(b: Bucket, ask: Ask, level: nat, p: Params)
    requires level <= b.tokens && level <= p.capacity
    requires ask.class_.Critical? || level <= Floor(ask.class_, p)
    ensures Step(b, ask, p).tokens >= level
  {
  }

  lemma {:induction false} RunKeepsLevel(b: Bucket, asks: seq<Ask>, level: nat, p: Params)
    requires level <= b.tokens && level <= p.capacity
    requires forall i :: 0 <= i < |asks| ==> asks[i].class_.Critical? || level <= Floor(asks[i].class_, p)
    ensures Final(b, asks, p).tokens >= level
    decreases |asks|
  {
    if asks != [] {
      StepKeepsLevel(b, asks[0], level, p);
      RunKeepsLevel(Step(b, asks[0], p), asks[1..], level, p);
    }
  }

  /** Whatever is asked, the tokens reserved for critical traffic stay. */
  lemma CriticalReserveHolds(b: Bucket, asks: seq<Ask>, p: Params)
    requires p.criticalReserve <= b.tokens && p.criticalReserve <= p.capacity
    ensures Final(b, asks, p).tokens >= p.criticalReserve
  {
    RunKeepsLevel(b, asks, p.criticalReserve, p);
  }

  /** The reserves are exact: what lies above them is given out, one token an ask, and critical
      asks need and take none. */
  lemma AdmittedIff(b: Bucket, now: Instant, p: Params)
    ensures var r := Refill(b, now, p);
      && (Answered(b, Ask(Forwarding, now), p).Admit? <==> r.tokens > p.criticalReserve)
      && (Answered(b, Ask(Host, now), p).Admit? <==> r.tokens > p.criticalReserve + p.forwardingReserve)
      && Answered(b, Ask(Critical, now), p).Admit? && Step(b, Ask(Critical, now), p) == r
      && forall c: TrafficClass :: !c.Critical? ==>
           Step(b, Ask(c, now), p) == if Answered(b, Ask(c, now), p).Admit? then Bucket(r.tokens - 1, r.last) else r
  {
  }

  /** Where the closed form does not apply: no limit, a bucket that is full or over-full, and a
      clock that went back. */
  lemma RefillElsewhere(b: Bucket, now: Instant, p: Params)
    ensures p.interval == 0 || b.tokens >= p.capacity ==> Refill(b, now, p) == Bucket(p.capacity, now)
    ensures p.interval > 0 && b.tokens < p.capacity && now < b.last ==> Refill(b, now, p) == b
  {
  }

  /** The forwarding reserve holds: no amount of host and critical traffic, at any times,
      keeps a bucket that held the reserves from admitting the next forwarded broadcast. */
  lemma ForwardingReserveHolds(b: Bucket, asks: seq<Ask>, now: Instant, p: Params)
    requires p.criticalReserve + p.forwardingReserve <= b.tokens
    requires p.criticalReserve + p.forwardingReserve <= p.capacity && p.forwardingReserve > 0
    requires forall i :: 0 <= i < |asks| ==> !asks[i].class_.Forwarding?
    ensures Answered(Final(b, asks, p), Ask(Forwarding, now), p).Admit?
  {
    RunKeepsLevel(b, asks, Floor(Host, p), p);
  }
}
