/** The table of unicasts with a known next hop: from admission over transmissions, retries,
    polls and acknowledgements to the one verdict that settles a send. */
module UnicastSends {
  import opened Prelude
  import SendConfirms

  type SendId = nat
  type Address = nat
  type Ack = nat

  /** Six levels, the last for the stack's own urgent frames. */
  type Priority = p: nat | p <= 5

  datatype Stage = Queued | Transmitting(acked: bool) | Retrying(at_: Instant) | AwaitingPoll | AwaitingApsAck

  /** What confirms a send: its handoff, or an acknowledgement within `wait` of it. */
  datatype Awaits = OnHandoff | ApsAck(ack: Ack, wait: Duration)

  /** `loaned` is set while the frame is in the radio's hands. */
  datatype Record = Record(loaned: bool, priority: Priority, awaits: Awaits, poll: Option<Address>, attempts: nat,
                           stage: Stage, deadline: Instant)

  datatype Failure = Radio(error: nat) | HandoffTimeout | AckTimeout | IndirectExpired(to: Address) | Cancelled

  datatype Outcome = Done | Gave(failure: Failure)

  /** What the table tells the driver to do, and what it hands to the radio. */
  datatype Action = Dequeued(id: SendId) | HandedOff(id: SendId) | Settled(id: SendId, outcome: Outcome)

  datatype Sends = Sends(next: SendId, table: map<SendId, Record>, inFlight: set<SendId>, log: seq<Action>)

  datatype Tunables = Tunables(handoffTimeout: Duration, persistence: Duration, retries: nat)

  /** The priority of a frame that answers a poll. */
  const STACK_CRITICAL: Priority := 5

  const Empty := Sends(0, map[], {}, [])

  // ---------------------------------------------------------------- operations

  datatype Op =
    | Enqueue(priority: Priority, awaits: Awaits, poll: Option<Address>, admitted: Option<Instant>,
              now: Instant, tunables: Tunables)
    | Dequeue(id: SendId, now: Instant)
    | Transmitted(id: SendId, result: Option<nat>, now: Instant, retryDelay: Duration)
    | Poll(id: SendId, from: set<Address>, now: Instant)
    | AckReceived(id: SendId, ack: Ack)
    | Cancel(id: SendId)
    | DropIndirect(to: set<Address>, order: seq<SendId>)
    | Tick(now: Instant, order: seq<SendId>)
    | Abandon(order: seq<SendId>)

  predicate Ready(r: Record, now: Instant) {
    r.stage == Queued && now < r.deadline
  }

  /** The highest priority, and of equal ones the oldest. */
  predicate Best(t: map<SendId, Record>, id: SendId, now: Instant) {
    && id in t && Ready(t[id], now)
    && forall x :: x in t && Ready(t[x], now) ==>
         t[x].priority < t[id].priority || (t[x].priority == t[id].priority && id <= x)
  }

  /** Why a record past its deadline fails; one in the radio does not. */
  function DeadlineFailure(r: Record): Option<Failure> {
    match r.stage
    case Transmitting(_) => None
    case AwaitingApsAck => Some(AckTimeout)
    case _ => Some(if r.poll.None? then HandoffTimeout else IndirectExpired(r.poll.value))
  }

  predicate Lapsed(r: Record, now: Instant) {
    r.deadline <= now && DeadlineFailure(r).Some?
  }

  predicate Indirect(r: Record, to: set<Address>) {
    r.stage == AwaitingPoll && r.poll.Some? && r.poll.value in to
  }

  /** A frame held for one of these addresses, with time left. */
  predicate Held(r: Record, from: set<Address>, now: Instant) {
    Indirect(r, from) && now < r.deadline
  }

  predicate Expects(r: Record, ack: Ack) {
    r.awaits.ApsAck? && r.awaits.ack == ack
  }

  function Elements(s: seq<SendId>): set<SendId> {
    set x | x in s
  }

  /** When an operation can be called: the sender asks for the best ready frame, reports only
      on frames it holds, and a pass visits the ids it matches in order. A poll or an
      acknowledgement goes to the oldest record that matches it. */
  predicate Enabled(s: Sends, op: Op) {
    match op
    case Enqueue(_, _, _, _, _, _) => true
    case Dequeue(id, now) => Best(s.table, id, now)
    case Transmitted(id, _, _, _) => id in s.inFlight
    case Poll(id, from, now) =>
      && id in s.table && Held(s.table[id], from, now)
      && forall x :: x in s.table && Held(s.table[x], from, now) ==> id <= x
    case AckReceived(id, ack) =>
      && id in s.table && Expects(s.table[id], ack)
      && forall x :: x in s.table && Expects(s.table[x], ack) ==> id <= x
    case Cancel(_) => true
    case DropIndirect(to, order) =>
      Increasing(order) && Elements(order) == set id | id in s.table && Indirect(s.table[id], to)
    case Tick(now, order) =>
      Increasing(order) && Elements(order) == set id | id in s.table && Lapsed(s.table[id], now)
    case Abandon(order) => Increasing(order) && Elements(order) == s.table.Keys
  }

  function Put(s: Sends, id: SendId, r: Record): Sends {
    s.(table := s.table[id := r])
  }

  /** `None` is the source's panic. A send that waits for its acknowledgement announces its
      handoff once more, in case the first announcement is overtaken. */
  function Settle(s: Sends, id: SendId, o: Outcome): Option<Sends> {
    if id !in s.table || s.table[id].loaned then None
    else
      var first := if s.table[id].stage == AwaitingApsAck then [HandedOff(id)] else [];
      Some(s.(table := s.table - {id}, log := s.log + first + [Settled(id, o)]))
  }

  /** A send that waited for its route keeps the deadline it was admitted with, except that a
      sleepy destination gets no longer than the persistence time. */
  function FirstDeadline(op: Op): Instant
    requires op.Enqueue?
  {
    var own := After(op.now, if op.poll.None? then op.tunables.handoffTimeout else op.tunables.persistence);
    if op.admitted.None? then own
    else if op.poll.None? || op.admitted.value < own then op.admitted.value
    else own
  }

  function Admitted(s: Sends, op: Op): Sends
    requires op.Enqueue?
  {
    var r := Record(false, op.priority, op.awaits, op.poll, op.tunables.retries,
                    if op.poll.None? then Queued else AwaitingPoll, FirstDeadline(op));
    s.(next := s.next + 1, table := s.table[s.next := r])
  }

  function TakeOut(s: Sends, id: SendId): Option<Sends> {
    if id !in s.table || s.table[id].loaned then None
    else Some(Put(s, id, s.table[id].(stage := Transmitting(false), loaned := true))
                .(inFlight := s.inFlight + {id}, log := s.log + [Dequeued(id)]))
  }

  /** The mesh accepted the frame: settle, or wait for the acknowledgement. */
  function Accept(s: Sends, id: SendId, acked: bool, now: Instant): Option<Sends>
    requires id in s.table
  {
    var r := s.table[id];
    if r.awaits.OnHandoff? || acked then Settle(s, id, Done)
    else
      var w := r.(stage := AwaitingApsAck, deadline := After(now, r.awaits.wait));
      Some(Put(s, id, w).(log := s.log + [HandedOff(id)]))
  }

  function Report(s: Sends, id: SendId, result: Option<nat>, now: Instant, retryDelay: Duration): Option<Sends> {
    if id !in s.table || !s.table[id].stage.Transmitting? then None
    else
      var acked, r := s.table[id].stage.acked, s.table[id].(loaned := false);
      var t := Put(s, id, r).(inFlight := s.inFlight - {id});
      if result.None? || acked then Accept(t, id, acked, now)
      else if r.poll.Some? then
        if now < r.deadline then Some(Put(t, id, r.(stage := AwaitingPoll)))
        else Settle(t, id, Gave(Radio(result.value)))
      else if r.attempts == 0 then Settle(t, id, Gave(Radio(result.value)))
      else Some(Put(t, id, r.(attempts := r.attempts - 1, stage := Retrying(After(now, retryDelay)))))
  }

  /** A retry whose time has come is queued again. */
  function Due(r: Record, now: Instant): Record {
    if r.stage.Retrying? && r.stage.at_ <= now then r.(stage := Queued) else r
  }

  function DueAll(t: map<SendId, Record>, now: Instant): map<SendId, Record> {
    map id | id in t :: Due(t[id], now)
  }

  /** Settles a list of sends, each with the failure its record calls for. */
  function SettleAll(s: Sends, order: seq<SendId>, why: Record -> Failure): Option<Sends> {
    if order == [] then Some(s)
    else
      var t, id := SettleAll(s, order[..|order| - 1], why), order[|order| - 1];
      if t.None? || id !in t.value.table then None else Settle(t.value, id, Gave(why(t.value.table[id])))
  }

  function ExpiredTo(r: Record): Failure {
    if r.poll.Some? then IndirectExpired(r.poll.value) else HandoffTimeout
  }

  function Overdue(r: Record): Failure {
    if DeadlineFailure(r).Some? then DeadlineFailure(r).value else HandoffTimeout
  }

  function CancelAll(order: seq<SendId>): seq<Action> {
    if order == [] then [] else CancelAll(order[..|order| - 1]) + [Settled(order[|order| - 1], Gave(Cancelled))]
  }

  /** At shutdown the driver fails the waiter of every send still live, also of those in the
      radio, which is never heard of again. */
  function Abandoned(s: Sends, order: seq<SendId>): Sends {
    s.(table := map[], inFlight := {}, log := s.log + CancelAll(order))
  }

  function Step(s: Sends, op: Op): Option<Sends> {
    match op
    case Enqueue(_, _, _, _, _, _) => Some(Admitted(s, op))
    case Dequeue(id, _) => TakeOut(s, id)
    case Transmitted(id, result, now, delay) => Report(s, id, result, now, delay)
    case Poll(id, _, _) =>
      if id !in s.table then None else Some(Put(s, id, s.table[id].(priority := STACK_CRITICAL, stage := Queued)))
    case AckReceived(id, _) =>
      if id !in s.table then None
      else if s.table[id].stage.Transmitting? then Some(Put(s, id, s.table[id].(stage := Transmitting(true))))
      else Settle(s, id, Done)
    case Cancel(id) =>
      if id !in s.table || s.table[id].stage.Transmitting? then Some(s) else Settle(s, id, Gave(Cancelled))
    case DropIndirect(_, order) => SettleAll(s, order, ExpiredTo)
    case Tick(now, order) => SettleAll(s.(table := DueAll(s.table, now)), order, Overdue)
    case Abandon(order) => Some(Abandoned(s, order))
  }

  // ---------------------------------------------------------------- soundness

  /** A frame is on loan exactly while its record says so and the radio holds it. */
  predicate Kept(s: Sends, id: SendId)
    requires id in s.table
  {
    id < s.next && s.table[id].loaned == s.table[id].stage.Transmitting? == (id in s.inFlight)
  }

  function Count(log: seq<Action>, a: Action -> bool): nat {
    if log == [] then 0 else Count(log[..|log| - 1], a) + if a(log[|log| - 1]) then 1 else 0
  }

  function Settles(id: SendId): Action -> bool {
    (a: Action) => a.Settled? && a.id == id
  }

  function Handoffs(id: SendId): Action -> bool {
    (a: Action) => a.HandedOff? && a.id == id
  }

  function Dequeues(id: SendId): Action -> bool {
    (a: Action) => a.Dequeued? && a.id == id
  }

  lemma CountAppend(log: seq<Action>, x: Action, a: Action -> bool)
    ensures Count(log + [x], a) == Count(log, a) + if a(x) then 1 else 0
  {
    assert (log + [x])[..|log|] == log;
  }

  /** A send is live, or was settled exactly once; while live its handoff was announced
      exactly if it waits for its acknowledgement. */
  predicate Accounted(s: Sends, id: SendId) {
    && Count(s.log, Settles(id)) == (if id < s.next && id !in s.table then 1 else 0)
    && (id in s.table ==> Count(s.log, Handoffs(id)) == if s.table[id].stage == AwaitingApsAck then 1 else 0)
    && (id >= s.next ==> Count(s.log, Handoffs(id)) == 0 && Count(s.log, Dequeues(id)) == 0)
  }

  ghost predicate Sound(s: Sends) {
    && (forall id :: id in s.table ==> Kept(s, id))
    && (forall id :: id in s.inFlight ==> id in s.table)
    && (forall id :: Accounted(s, id))
  }

  lemma Untouched(s: Sends, t: Sends, id: SendId)
    requires Accounted(s, id) && t.next >= s.next && (id < t.next ==> id < s.next)
    requires t.log == s.log
    requires id in t.table <==> id in s.table
    requires id in t.table ==> (t.table[id].stage == AwaitingApsAck <==> s.table[id].stage == AwaitingApsAck)
    ensures Accounted(t, id)
  {
  }

  /** The two actions of a settlement, counted. */
  lemma CountSettlement(log: seq<Action>, id: SendId, o: Outcome, repeated: bool, x: SendId)
    ensures var grown := log + (if repeated then [HandedOff(id)] else []) + [Settled(id, o)];
      && Count(grown, Settles(x)) == Count(log, Settles(x)) + (if x == id then 1 else 0)
      && Count(grown, Handoffs(x)) == Count(log, Handoffs(x)) + (if x == id && repeated then 1 else 0)
      && Count(grown, Dequeues(x)) == Count(log, Dequeues(x))
  {
    var first := if repeated then [HandedOff(id)] else [];
    assert log + [] == log;
    CountAppend(log, HandedOff(id), Settles(x));
    CountAppend(log, HandedOff(id), Handoffs(x));
    CountAppend(log + first, Settled(id, o), Settles(x));
    CountAppend(log + first, Settled(id, o), Handoffs(x));
    CountAppend(log, HandedOff(id), Dequeues(x));
    CountAppend(log + first, Settled(id, o), Dequeues(x));
  }

  lemma SettleIsSound(s: Sends, id: SendId, o: Outcome)
    requires Sound(s) && id in s.table && !s.table[id].loaned
    ensures Settle(s, id, o).Some? && Sound(Settle(s, id, o).value)
  {
    var t := Settle(s, id, o).value;
    assert Kept(s, id);
    forall x ensures Accounted(t, x) {
      assert Accounted(s, x);
      CountSettlement(s.log, id, o, s.table[id].stage == AwaitingApsAck, x);
    }
    forall x | x in t.table ensures Kept(t, x) {
      assert Kept(s, x);
    }
  }

  /** Rewriting a record without moving it into or out of the radio or the ack wait. */
  lemma PutIsSound(s: Sends, id: SendId, r: Record)
    requires Sound(s) && id in s.table && r.loaned == s.table[id].loaned
    requires r.stage.Transmitting? == s.table[id].stage.Transmitting?
    requires r.stage == AwaitingApsAck <==> s.table[id].stage == AwaitingApsAck
    ensures Sound(Put(s, id, r))
  {
    var t := Put(s, id, r);
    forall x ensures Accounted(t, x) {
      Untouched(s, t, x);
    }
    forall x | x in t.table ensures Kept(t, x) {
      assert Kept(s, x);
    }
  }

  lemma AdmitIsSound(s: Sends, op: Op)
    requires Sound(s) && op.Enqueue?
    ensures Sound(Admitted(s, op))
  {
    var t := Admitted(s, op);
    assert s.next in s.table ==> Kept(s, s.next);
    forall x ensures Accounted(t, x) {
      assert Accounted(s, x);
    }
    forall x | x in t.table ensures Kept(t, x) {
      if x in s.table {
        assert Kept(s, x);
      }
    }
  }

  lemma TakeOutIsSound(s: Sends, id: SendId)
    requires Sound(s) && id in s.table && s.table[id].stage == Queued
    ensures TakeOut(s, id).Some? && Sound(TakeOut(s, id).value)
  {
    assert Kept(s, id);
    var t := TakeOut(s, id).value;
    forall x ensures Accounted(t, x) {
      assert Accounted(s, x);
      CountAppend(s.log, Dequeued(id), Settles(x));
      CountAppend(s.log, Dequeued(id), Handoffs(x));
      CountAppend(s.log, Dequeued(id), Dequeues(x));
    }
    forall x | x in t.table ensures Kept(t, x) {
      assert Kept(s, x);
    }
  }

  /** A frame comes back from the radio into a stage short of the ack wait. */
  lemma ReturnIsSound(s: Sends, id: SendId, r: Record)
    requires Sound(s) && id in s.table && s.table[id].stage.Transmitting?
    requires !r.loaned && !r.stage.Transmitting? && r.stage != AwaitingApsAck
    ensures Sound(Put(s, id, r).(inFlight := s.inFlight - {id}))
  {
    var t := Put(s, id, r).(inFlight := s.inFlight - {id});
    forall x ensures Accounted(t, x) {
      Untouched(s, t, x);
    }
    forall x | x in t.table ensures Kept(t, x) {
      assert Kept(s, x);
    }
  }

  lemma AnnounceIsSound(s: Sends, id: SendId, r: Record)
    requires Sound(s) && id in s.table && !s.table[id].loaned && s.table[id].stage != AwaitingApsAck
    requires !r.loaned && r.stage == AwaitingApsAck
    ensures Sound(Put(s, id, r).(log := s.log + [HandedOff(id)]))
  {
    var t := Put(s, id, r).(log := s.log + [HandedOff(id)]);
    assert Kept(s, id);
    forall x ensures Accounted(t, x) {
      assert Accounted(s, x);
      CountAppend(s.log, HandedOff(id), Settles(x));
      CountAppend(s.log, HandedOff(id), Handoffs(x));
      CountAppend(s.log, HandedOff(id), Dequeues(x));
    }
    forall x | x in t.table ensures Kept(t, x) {
      assert Kept(s, x);
    }
  }

  lemma ReportIsSound(s: Sends, id: SendId, result: Option<nat>, now: Instant, delay: Duration)
    requires Sound(s) && id in s.inFlight
    ensures Report(s, id, result, now, delay).Some? && Sound(Report(s, id, result, now, delay).value)
  {
    assert Kept(s, id);
    var acked, r := s.table[id].stage.acked, s.table[id].(loaned := false);
    var idle := r.(stage := Queued);
    var q := Put(s, id, idle).(inFlight := s.inFlight - {id});
    ReturnIsSound(s, id, idle);
    if result.None? || acked {
      if r.awaits.OnHandoff? || acked {
        SettleIsSound(q, id, Done);
        SettleSkipsStage(s, id, r, Done);
      } else {
        var w := r.(stage := AwaitingApsAck, deadline := After(now, r.awaits.wait));
        AnnounceIsSound(q, id, w);
        assert q.table[id := w] == s.table[id := r][id := w];
      }
    } else if r.poll.Some? && now < r.deadline {
      ReturnIsSound(s, id, r.(stage := AwaitingPoll));
      assert s.table[id := r][id := r.(stage := AwaitingPoll)] == s.table[id := r.(stage := AwaitingPoll)];
    } else if r.poll.Some? || r.attempts == 0 {
      SettleIsSound(q, id, Gave(Radio(result.value)));
      SettleSkipsStage(s, id, r, Gave(Radio(result.value)));
    } else {
      var w := r.(attempts := r.attempts - 1, stage := Retrying(After(now, delay)));
      ReturnIsSound(s, id, w);
      assert s.table[id := r][id := w] == s.table[id := w];
    }
  }

  /** Settling from the radio's hands is settling from the queue. */
  lemma SettleSkipsStage(s: Sends, id: SendId, r: Record, o: Outcome)
    requires id in s.table && !r.loaned && r.stage.Transmitting?
    ensures Settle(Put(s, id, r).(inFlight := s.inFlight - {id}), id, o)
         == Settle(Put(s, id, r.(stage := Queued)).(inFlight := s.inFlight - {id}), id, o)
  {
    assert s.table[id := r] - {id} == s.table[id := r.(stage := Queued)] - {id};
  }

  lemma LastIsNew(order: seq<SendId>)
    requires order != [] && Increasing(order)
    ensures var front, id := order[..|order| - 1], order[|order| - 1];
      && id in order && id !in front && id !in Elements(front) && Elements(order) == Elements(front) + {id}
      && Increasing(front) && forall x :: x in front ==> x in order
  {
    var front, id := order[..|order| - 1], order[|order| - 1];
    assert order == front + [id];
  }

  lemma {:induction false} SettleAllIsSound(s: Sends, order: seq<SendId>, why: Record -> Failure)
    requires Sound(s) && Increasing(order)
    requires forall id :: id in order ==> id in s.table && !s.table[id].loaned
    ensures var t := SettleAll(s, order, why);
      t.Some? && Sound(t.value) && t.value.table == s.table - Elements(order)
  {
    if order != [] {
      var front, id := order[..|order| - 1], order[|order| - 1];
      LastIsNew(order);
      SettleAllIsSound(s, front, why);
      var t := SettleAll(s, front, why).value;
      SettleIsSound(t, id, Gave(why(t.table[id])));
    }
  }

  lemma DueIsSound(s: Sends, now: Instant)
    requires Sound(s)
    ensures Sound(s.(table := DueAll(s.table, now)))
  {
    var t := s.(table := DueAll(s.table, now));
    forall x ensures Accounted(t, x) {
      Untouched(s, t, x);
    }
    forall x | x in t.table ensures Kept(t, x) {
      assert Kept(s, x);
    }
  }

  lemma {:induction false} CountCancelled(log: seq<Action>, order: seq<SendId>, x: SendId)
    requires Increasing(order)
    ensures var grown := log + CancelAll(order);
      && Count(grown, Settles(x)) == Count(log, Settles(x)) + (if x in order then 1 else 0)
      && Count(grown, Handoffs(x)) == Count(log, Handoffs(x))
      && Count(grown, Dequeues(x)) == Count(log, Dequeues(x))
  {
    if order == [] {
      assert log + [] == log;
    } else {
      var front, id := order[..|order| - 1], order[|order| - 1];
      assert order == front + [id];
      assert id !in front;
      CountCancelled(log, front, x);
      var a := Settled(id, Gave(Cancelled));
      Regroup(log, CancelAll(front), [a]);
      CountAppend(log + CancelAll(front), a, Settles(x));
      CountAppend(log + CancelAll(front), a, Handoffs(x));
      CountAppend(log + CancelAll(front), a, Dequeues(x));
    }
  }

  lemma AbandonIsSound(s: Sends, order: seq<SendId>)
    requires Sound(s) && Enabled(s, Abandon(order))
    ensures Sound(Abandoned(s, order))
  {
    var t := Abandoned(s, order);
    forall x ensures Accounted(t, x) {
      assert Accounted(s, x);
      assert x in order <==> x in Elements(order);
      assert x in s.table ==> Kept(s, x);
      CountCancelled(s.log, order, x);
    }
  }

  /** No operation panics, and all keep the table sound. */
  lemma StepIsSound(s: Sends, op: Op)
    requires Sound(s) && Enabled(s, op)
    ensures Step(s, op).Some? && Sound(Step(s, op).value)
  {
    match op
    case Enqueue(_, _, _, _, _, _) => AdmitIsSound(s, op);
    case Dequeue(id, now) => TakeOutIsSound(s, id);
    case Transmitted(id, result, now, delay) => ReportIsSound(s, id, result, now, delay);
    case Poll(id, _, _) => PutIsSound(s, id, s.table[id].(priority := STACK_CRITICAL, stage := Queued));
    case AckReceived(id, _) =>
      assert Kept(s, id);
      if s.table[id].stage.Transmitting? {
        PutIsSound(s, id, s.table[id].(stage := Transmitting(true)));
      } else {
        SettleIsSound(s, id, Done);
      }
    case Cancel(id) =>
      if id in s.table && !s.table[id].stage.Transmitting? {
        assert Kept(s, id);
        SettleIsSound(s, id, Gave(Cancelled));
      }
    case DropIndirect(to, order) =>
      PassIsSettleable(s, order, set id | id in s.table && Indirect(s.table[id], to));
      SettleAllIsSound(s, order, ExpiredTo);
    case Tick(now, order) =>
      PassIsSettleable(s, order, set id | id in s.table && Lapsed(s.table[id], now));
      DueIsSound(s, now);
      SettleAllIsSound(s.(table := DueAll(s.table, now)), order, Overdue);
    case Abandon(order) => AbandonIsSound(s, order);
  }

  lemma PassIsSettleable(s: Sends, order: seq<SendId>, among: set<SendId>)
    requires Sound(s) && Elements(order) == among
    requires forall id :: id in among ==> id in s.table && !s.table[id].stage.Transmitting?
    ensures forall id :: id in order ==> id in s.table && !s.table[id].loaned
  {
    forall id | id in order ensures id in s.table && !s.table[id].loaned {
      assert id in Elements(order);
      assert Kept(s, id);
    }
  }

  function RunFrom(s: Sends, ops: seq<Op>): Option<Sends> {
    if ops == [] then Some(s)
    else
      var t := RunFrom(s, ops[..|ops| - 1]);
      if t.None? || !Enabled(t.value, ops[|ops| - 1]) then None else Step(t.value, ops[|ops| - 1])
  }

  lemma {:induction false} RunIsSound(s: Sends, ops: seq<Op>)
    requires Sound(s) && RunFrom(s, ops).Some?
    ensures Sound(RunFrom(s, ops).value)
  {
    if ops != [] {
      RunIsSound(s, ops[..|ops| - 1]);
      StepIsSound(RunFrom(s, ops[..|ops| - 1]).value, ops[|ops| - 1]);
    }
  }

  /** Every operation that can be called goes through, from every state reached. */
  lemma RunGoesOn(ops: seq<Op>, op: Op)
    requires RunFrom(Empty, ops).Some? && Enabled(RunFrom(Empty, ops).value, op)
    ensures RunFrom(Empty, []) == Some(Empty)
    ensures RunFrom(Empty, ops + [op]).Some? && RunFrom(Empty, ops + [op]) == Step(RunFrom(Empty, ops).value, op)
  {
    RunIsSound(Empty, ops);
    StepIsSound(RunFrom(Empty, ops).value, op);
    assert (ops + [op])[..|ops|] == ops;
  }

  lemma {:induction false} Least(s: set<SendId>) returns (id: SendId)
    requires s != {}
    ensures id in s && forall x :: x in s ==> id <= x
    decreases |s|
  {
    var y :| y in s;
    var rest := s - {y};
    id := y;
    if rest != {} {
      var z := Least(rest);
      id := if z < y then z else y;
    }
    forall x | x in s ensures id <= x {
      assert x == y || x in rest;
    }
  }

  lemma {:induction false} Sorted(s: set<SendId>) returns (order: seq<SendId>)
    ensures Increasing(order) && Elements(order) == s
    decreases |s|
  {
    order := [];
    if s != {} {
      var id := Least(s);
      var rest := Sorted(s - {id});
      order := [id] + rest;
      assert forall x :: x in rest ==> x in Elements(rest);
      forall i, j | 0 <= i < j < |order| ensures order[i] < order[j] {
        assert order[j] == rest[j - 1] && rest[j - 1] in s - {id};
      }
      assert Elements(order) == {id} + Elements(rest);
    }
  }

  /** A send can be admitted or cancelled and a pass made at any time. */
  lemma AlwaysOpen(s: Sends, op: Op, id: SendId, now: Instant, to: set<Address>)
    ensures op.Enqueue? ==> Enabled(s, op)
    ensures Enabled(s, Cancel(id))
    ensures exists order :: Enabled(s, Tick(now, order))
    ensures exists order :: Enabled(s, DropIndirect(to, order))
    ensures exists order :: Enabled(s, Abandon(order))
  {
    var order := Sorted(set x | x in s.table && Lapsed(s.table[x], now));
    assert Enabled(s, Tick(now, order));
    order := Sorted(set x | x in s.table && Indirect(s.table[x], to));
    assert Enabled(s, DropIndirect(to, order));
    order := Sorted(s.table.Keys);
    assert Enabled(s, Abandon(order));
  }

  /** Settled exactly once: over any run every send that was admitted is either still in the
      table, unsettled, or out of it and settled once; nothing else is ever settled. */
  lemma SettledExactlyOnce(ops: seq<Op>, id: SendId)
    requires RunFrom(Empty, ops).Some?
    ensures var s := RunFrom(Empty, ops).value;
      && Count(s.log, Settles(id)) <= 1
      && (id in s.table ==> id < s.next && Count(s.log, Settles(id)) == 0)
      && (id < s.next && id !in s.table ==> Count(s.log, Settles(id)) == 1)
      && (id >= s.next ==> Count(s.log, Settles(id)) == 0)
  {
    RunIsSound(Empty, ops);
    var s := RunFrom(Empty, ops).value;
    assert Accounted(s, id);
    if id in s.table {
      assert Kept(s, id);
    }
  }

  // ---------------------------------------------------------------- verdicts

  /** What must have happened for a send to be settled with an outcome. */
  predicate Earned(r: Record, op: Op, id: SendId, o: Outcome) {
    var acked := r.stage.Transmitting? && r.stage.acked;
    match o
    case Done =>
      || (op.AckReceived? && op.id == id && Expects(r, op.ack) && !r.stage.Transmitting?)
      || (op.Transmitted? && op.id == id && (acked || (op.result.None? && r.awaits.OnHandoff?)))
    case Gave(Radio(e)) =>
      && op.Transmitted? && op.id == id && op.result == Some(e) && !acked
      && (if r.poll.Some? then r.deadline <= op.now else r.attempts == 0)
    case Gave(Cancelled) => (op.Cancel? && op.id == id && !r.stage.Transmitting?) || op.Abandon?
    case Gave(AckTimeout) => op.Tick? && r.deadline <= op.now && r.stage == AwaitingApsAck
    case Gave(HandoffTimeout) => op.Tick? && r.deadline <= op.now && r.poll.None? && r.stage != AwaitingApsAck
    case Gave(IndirectExpired(a)) =>
      && r.poll == Some(a) && r.stage != AwaitingApsAck
      && ((op.Tick? && r.deadline <= op.now) || (op.DropIndirect? && a in op.to && r.stage == AwaitingPoll))
  }

  /** Every settlement of a pass names the reason its record had. */
  lemma {:induction false} SettleAllLog(s: Sends, order: seq<SendId>, why: Record -> Failure, k: nat)
    requires SettleAll(s, order, why).Some? && Increasing(order)
    ensures var log := SettleAll(s, order, why).value.log;
      && s.log <= log
      && (|s.log| <= k < |log| && log[k].Settled? ==>
            log[k].id in order && log[k].id in s.table && log[k].outcome == Gave(why(s.table[log[k].id])))
  {
    if order != [] {
      var front, id := order[..|order| - 1], order[|order| - 1];
      assert order == front + [id];
      SettleAllLog(s, front, why, k);
      SettleAllTable(s, front, why);
      assert id !in front;
    }
  }

  lemma {:induction false} SettleAllTable(s: Sends, order: seq<SendId>, why: Record -> Failure)
    requires SettleAll(s, order, why).Some?
    ensures SettleAll(s, order, why).value.table == s.table - Elements(order)
  {
    if order != [] {
      SettleAllTable(s, order[..|order| - 1], why);
      assert order == order[..|order| - 1] + [order[|order| - 1]];
      assert Elements(order) == Elements(order[..|order| - 1]) + {order[|order| - 1]};
    }
  }

  lemma PassesAreEarned(s: Sends, op: Op, k: nat)
    requires Sound(s) && Enabled(s, op) && Step(s, op).Some? && (op.Tick? || op.DropIndirect?)
    requires var log := Step(s, op).value.log; |s.log| <= k < |log| && log[k].Settled?
    ensures var a := Step(s, op).value.log[k]; a.id in s.table && Earned(s.table[a.id], op, a.id, a.outcome)
  {
    var a := Step(s, op).value.log[k];
    if op.Tick? {
      SettleAllLog(s.(table := DueAll(s.table, op.now)), op.order, Overdue, k);
    } else {
      SettleAllLog(s, op.order, ExpiredTo, k);
    }
    assert a.id in Elements(op.order);
  }

  lemma {:induction false} CancelAllLog(order: seq<SendId>, k: nat)
    ensures |CancelAll(order)| == |order|
    ensures k < |order| ==> CancelAll(order)[k] == Settled(order[k], Gave(Cancelled))
  {
    if order != [] {
      CancelAllLog(order[..|order| - 1], k);
    }
  }

  /** Verdicts are true: a send is settled as delivered only on its acknowledgement or on a
      handoff that confirms it, as failed by the radio only with its attempts or its time
      used up, as timed out only past its deadline, and as cancelled only on request or at
      shutdown. */
  lemma OutcomesAreEarned(s: Sends, op: Op, k: nat)
    requires Sound(s) && Enabled(s, op) && Step(s, op).Some?
    requires var log := Step(s, op).value.log; |s.log| <= k < |log| && log[k].Settled?
    ensures var a := Step(s, op).value.log[k]; a.id in s.table && Earned(s.table[a.id], op, a.id, a.outcome)
  {
    if op.Tick? || op.DropIndirect? {
      PassesAreEarned(s, op, k);
    } else if op.Abandon? {
      CancelAllLog(op.order, k - |s.log|);
      assert Step(s, op).value.log[k].id in Elements(op.order);
    } else if op.Transmitted? {
      assert Kept(s, op.id);
    }
  }

  // ---------------------------------------------------------------- attempts

  /** How many transmissions a record still has coming. */
  function Remaining(r: Record): nat {
    r.attempts + if r.stage == Queued || r.stage.Retrying? then 1 else 0
  }

  /** Transmissions so far and still to come. */
  function Budget(s: Sends, id: SendId): nat {
    Count(s.log, Dequeues(id)) + if id in s.table then Remaining(s.table[id]) else 0
  }

  lemma SettleSpends(s: Sends, x: SendId, o: Outcome, id: SendId)
    requires x in s.table && !s.table[x].loaned
    ensures Budget(Settle(s, x, o).value, id) <= Budget(s, id)
  {
    CountSettlement(s.log, x, o, s.table[x].stage == AwaitingApsAck, id);
  }

  lemma {:induction false} SettleAllSpends(s: Sends, order: seq<SendId>, why: Record -> Failure, id: SendId)
    requires SettleAll(s, order, why).Some?
    ensures Budget(SettleAll(s, order, why).value, id) <= Budget(s, id)
  {
    if order != [] {
      var t := SettleAll(s, order[..|order| - 1], why).value;
      SettleAllSpends(s, order[..|order| - 1], why, id);
      SettleSpends(t, order[|order| - 1], Gave(why(t.table[order[|order| - 1]])), id);
    }
  }

  /** A send that its destination does not poll for. */
  predicate Direct(s: Sends, id: SendId) {
    id < s.next && (id in s.table ==> s.table[id].poll.None? && s.table[id].stage != AwaitingPoll)
  }

  /** An operation keeps a direct send direct and adds no transmission to its budget. */
  predicate Spends(s: Sends, t: Option<Sends>, id: SendId) {
    t.Some? && Direct(t.value, id) && Budget(t.value, id) <= Budget(s, id)
  }

  lemma ReportSpends(s: Sends, x: SendId, result: Option<nat>, now: Instant, delay: Duration, id: SendId)
    requires Sound(s) && x in s.inFlight && Direct(s, id)
    ensures Spends(s, Report(s, x, result, now, delay), id)
  {
    assert Kept(s, x);
    var acked, r := s.table[x].stage.acked, s.table[x].(loaned := false);
    var t := Put(s, x, r).(inFlight := s.inFlight - {x});
    assert Budget(t, id) == Budget(s, id);
    CountAppend(s.log, HandedOff(x), Dequeues(id));
    if result.None? || acked {
      if r.awaits.OnHandoff? || acked {
        SettleSpends(t, x, Done, id);
      }
    } else if (r.poll.Some? && now >= r.deadline) || (r.poll.None? && r.attempts == 0) {
      SettleSpends(t, x, Gave(Radio(result.value)), id);
    }
  }

  lemma AdmitSpends(s: Sends, op: Op, id: SendId)
    requires op.Enqueue? && Direct(s, id)
    ensures Spends(s, Step(s, op), id)
  {
  }

  lemma TakeOutIs(s: Sends, x: SendId)
    requires x in s.table && !s.table[x].loaned
    ensures var t, r := TakeOut(s, x), s.table[x].(stage := Transmitting(false), loaned := true);
      t.Some? && t.value.log == s.log + [Dequeued(x)] && t.value.table == s.table[x := r] && t.value.next == s.next
  {
  }

  lemma TakeOutSpends(s: Sends, x: SendId, id: SendId)
    requires x in s.table && s.table[x].stage == Queued && !s.table[x].loaned && Direct(s, id)
    ensures Spends(s, TakeOut(s, x), id)
  {
    TakeOutIs(s, x);
    CountAppend(s.log, Dequeued(x), Dequeues(id));
    var t := TakeOut(s, x).value;
    if id == x {
      assert Remaining(t.table[id]) + 1 == Remaining(s.table[id]);
    } else {
      assert id in s.table ==> t.table[id] == s.table[id];
    }
  }

  lemma DequeueSpends(s: Sends, op: Op, id: SendId)
    requires Sound(s) && op.Dequeue? && Enabled(s, op) && Direct(s, id)
    ensures Spends(s, Step(s, op), id)
  {
    assert Kept(s, op.id);
    TakeOutSpends(s, op.id, id);
  }

  lemma PollSpends(s: Sends, op: Op, id: SendId)
    requires op.Poll? && Enabled(s, op) && Direct(s, id)
    ensures Spends(s, Step(s, op), id)
  {
  }

  lemma AckSpends(s: Sends, op: Op, id: SendId)
    requires Sound(s) && op.AckReceived? && Enabled(s, op) && Direct(s, id)
    ensures Spends(s, Step(s, op), id)
  {
    assert Kept(s, op.id);
    if !s.table[op.id].stage.Transmitting? {
      SettleSpends(s, op.id, Done, id);
    }
  }

  lemma CancelSpends(s: Sends, op: Op, id: SendId)
    requires Sound(s) && op.Cancel? && Direct(s, id)
    ensures Spends(s, Step(s, op), id)
  {
    assert op.id in s.table ==> Kept(s, op.id);
    if op.id in s.table && !s.table[op.id].stage.Transmitting? {
      SettleSpends(s, op.id, Gave(Cancelled), id);
    }
  }

  lemma AbandonSpends(s: Sends, op: Op, id: SendId)
    requires op.Abandon? && Enabled(s, op) && Direct(s, id)
    ensures Spends(s, Step(s, op), id)
  {
    CountCancelled(s.log, op.order, id);
  }

  lemma StepSpends(s: Sends, op: Op, id: SendId)
    requires Sound(s) && Enabled(s, op) && Direct(s, id)
    ensures Spends(s, Step(s, op), id)
  {
    match op
    case Enqueue(_, _, _, _, _, _) => AdmitSpends(s, op, id);
    case Dequeue(_, _) => DequeueSpends(s, op, id);
    case Transmitted(x, result, now, delay) => ReportSpends(s, x, result, now, delay, id);
    case Poll(_, _, _) => PollSpends(s, op, id);
    case AckReceived(_, _) => AckSpends(s, op, id);
    case Cancel(_) => CancelSpends(s, op, id);
    case DropIndirect(_, _) => DropSpends(s, op, id);
    case Tick(_, _) => TickSpends(s, op, id);
    case Abandon(_) => AbandonSpends(s, op, id);
  }

  lemma DropSpends(s: Sends, op: Op, id: SendId)
    requires Sound(s) && op.DropIndirect? && Enabled(s, op) && Direct(s, id)
    ensures Spends(s, Step(s, op), id)
  {
    PassIsSettleable(s, op.order, set y | y in s.table && Indirect(s.table[y], op.to));
    SettleAllIsSound(s, op.order, ExpiredTo);
    SettleAllSpends(s, op.order, ExpiredTo, id);
    SettleAllKeepsNext(s, op.order, ExpiredTo);
  }

  lemma TickSpends(s: Sends, op: Op, id: SendId)
    requires Sound(s) && op.Tick? && Enabled(s, op) && Direct(s, id)
    ensures Spends(s, Step(s, op), id)
  {
    var q := s.(table := DueAll(s.table, op.now));
    assert Budget(q, id) == Budget(s, id);
    TickTable(s, op.now, op.order);
    SettleAllSpends(q, op.order, Overdue, id);
    SettleAllKeepsNext(q, op.order, Overdue);
  }

  lemma {:induction false} SettleAllKeepsNext(s: Sends, order: seq<SendId>, why: Record -> Failure)
    requires SettleAll(s, order, why).Some?
    ensures SettleAll(s, order, why).value.next == s.next
  {
    if order != [] {
      SettleAllKeepsNext(s, order[..|order| - 1], why);
    }
  }

  lemma {:induction false} RunSpends(s: Sends, ops: seq<Op>, id: SendId)
    requires Sound(s) && Direct(s, id) && RunFrom(s, ops).Some?
    ensures var t := RunFrom(s, ops).value; Sound(t) && Direct(t, id) && Budget(t, id) <= Budget(s, id)
  {
    if ops != [] {
      var t := RunFrom(s, ops[..|ops| - 1]).value;
      RunSpends(s, ops[..|ops| - 1], id);
      StepIsSound(t, ops[|ops| - 1]);
      StepSpends(t, ops[|ops| - 1], id);
    }
  }

  /** A direct unicast is transmitted at most once more than it has retries, whatever else
      happens in the table. */
  lemma AttemptsAreBounded(before: seq<Op>, admit: Op, after: seq<Op>)
    requires RunFrom(Empty, before).Some? && admit.Enqueue? && admit.poll.None?
    requires RunFrom(Admitted(RunFrom(Empty, before).value, admit), after).Some?
    ensures var s := RunFrom(Empty, before).value;
      Count(RunFrom(Admitted(s, admit), after).value.log, Dequeues(s.next)) <= admit.tunables.retries + 1
  {
    var s := RunFrom(Empty, before).value;
    RunIsSound(Empty, before);
    assert Accounted(s, s.next);
    AdmitIsSound(s, admit);
    RunSpends(Admitted(s, admit), after, s.next);
  }

  // ---------------------------------------------------------------- the timer

  /** The next time a record needs attention; one in the radio needs none. */
  function WakeOf(r: Record): Option<Instant> {
    match r.stage
    case Transmitting(_) => None
    case Retrying(t) => Some(if t < r.deadline then t else r.deadline)
    case _ => Some(r.deadline)
  }

  /** Whether a pass at `now` would do anything to a record. */
  predicate Acts(r: Record, now: Instant) {
    Due(r, now) != r || Lapsed(r, now)
  }

  /** The wake is exact: a pass does something to a record from its wake on, and nothing
      before it. */
  lemma WakeIsExact(r: Record, now: Instant)
    ensures Acts(r, now) <==> WakeOf(r).Some? && WakeOf(r).value <= now
  {
  }

  /** The table that a pass leaves. */
  lemma TickTable(s: Sends, now: Instant, order: seq<SendId>)
    requires Sound(s) && Enabled(s, Tick(now, order))
    ensures var t := Step(s, Tick(now, order));
      t.Some? && t.value.table == DueAll(s.table, now) - set id | id in s.table && Lapsed(s.table[id], now)
  {
    PassIsSettleable(s, order, set id | id in s.table && Lapsed(s.table[id], now));
    DueIsSound(s, now);
    SettleAllIsSound(s.(table := DueAll(s.table, now)), order, Overdue);
  }

  lemma NoElements(order: seq<SendId>)
    ensures Elements(order) == {} ==> order == []
  {
    if order != [] {
      assert order[0] in Elements(order);
    }
  }

  /** A pass before every wake is no pass at all, and any other changes the table. */
  lemma TickIsExact(s: Sends, now: Instant, order: seq<SendId>)
    requires Sound(s) && Enabled(s, Tick(now, order))
    ensures Step(s, Tick(now, order)) == Some(s)
            <==> forall id :: id in s.table ==> WakeOf(s.table[id]).None? || now < WakeOf(s.table[id]).value
  {
    TickTable(s, now, order);
    var t := Step(s, Tick(now, order)).value;
    forall id | id in s.table
      ensures Acts(s.table[id], now) <==> WakeOf(s.table[id]).Some? && WakeOf(s.table[id]).value <= now
    {
      WakeIsExact(s.table[id], now);
    }
    if id :| id in s.table && Acts(s.table[id], now) {
      assert id in t.table ==> t.table[id] == Due(s.table[id], now);
    } else {
      NoElements(order);
      assert DueAll(s.table, now) == s.table;
    }
  }

  /** No send is stranded: after a pass every send left is in the radio or has time left, and
      no retry that is due still waits. */
  lemma TickLeavesNoneOverdue(s: Sends, now: Instant, order: seq<SendId>, id: SendId)
    requires Sound(s) && Enabled(s, Tick(now, order))
    ensures var t := Step(s, Tick(now, order));
      t.Some? && (id in t.value.table ==>
        var r := t.value.table[id];
        (r.stage.Transmitting? || now < r.deadline) && (r.stage.Retrying? ==> now < r.stage.at_))
  {
    TickTable(s, now, order);
  }

  // ---------------------------------------------------------------- the life of one send

  /** Whether an operation takes a send out of the table, told from its record alone. */
  predicate Leaves(r: Record, op: Op, id: SendId) {
    match op
    case Transmitted(x, result, now, _) =>
      x == id && r.stage.Transmitting? &&
      (r.stage.acked || if result.None? then r.awaits.OnHandoff?
                        else if r.poll.Some? then r.deadline <= now
                        else r.attempts == 0)
    case AckReceived(x, _) => x == id && !r.stage.Transmitting?
    case Cancel(x) => x == id && !r.stage.Transmitting?
    case DropIndirect(to, _) => r.stage == AwaitingPoll && r.poll.Some? && r.poll.value in to
    case Tick(now, _) => r.deadline <= now && !r.stage.Transmitting?
    case Abandon(_) => true
    case _ => false
  }

  /** What an operation makes of the record of a send that stays. */
  function Moved(r: Record, op: Op, id: SendId): Record {
    match op
    case Dequeue(x, _) => if x == id then r.(stage := Transmitting(false), loaned := true) else r
    case Transmitted(x, result, now, delay) =>
      if x != id then r
      else if result.None? then
        if r.awaits.OnHandoff? then r
        else r.(loaned := false, stage := AwaitingApsAck, deadline := After(now, r.awaits.wait))
      else if r.poll.Some? then r.(loaned := false, stage := AwaitingPoll)
      else if r.attempts == 0 then r
      else r.(loaned := false, stage := Retrying(After(now, delay)), attempts := r.attempts - 1)
    case Poll(x, _, _) => if x == id then r.(stage := Queued, priority := 5) else r
    case AckReceived(x, _) => if x == id then r.(stage := Transmitting(true)) else r
    case Tick(now, _) => if r.stage.Retrying? && r.stage.at_ <= now then r.(stage := Queued) else r
    case _ => r
  }

  /** A send in the table stays or leaves as its own record says; one outside stays outside. */
  predicate Follows(s: Sends, t: Sends, op: Op, id: SendId) {
    && s.next <= t.next
    && (id in s.table ==> if Leaves(s.table[id], op, id) then id !in t.table
                          else id in t.table && t.table[id] == Moved(s.table[id], op, id))
    && (id !in s.table && id < s.next ==> id !in t.table)
  }

  lemma ReportFollows(s: Sends, op: Op, id: SendId)
    requires Sound(s) && op.Transmitted? && Enabled(s, op)
    ensures Step(s, op).Some? && Follows(s, Step(s, op).value, op, id)
  {
    assert Kept(s, op.id);
  }

  lemma PassFollows(s: Sends, op: Op, id: SendId)
    requires Sound(s) && (op.Tick? || op.DropIndirect? || op.Abandon?) && Enabled(s, op)
    ensures Step(s, op).Some? && Follows(s, Step(s, op).value, op, id)
  {
    if op.Tick? {
      TickTable(s, op.now, op.order);
      SettleAllKeepsNext(s.(table := DueAll(s.table, op.now)), op.order, Overdue);
    } else if op.DropIndirect? {
      PassIsSettleable(s, op.order, set x | x in s.table && Indirect(s.table[x], op.to));
      SettleAllIsSound(s, op.order, ExpiredTo);
      SettleAllKeepsNext(s, op.order, ExpiredTo);
    }
  }

  lemma StepFollows(s: Sends, op: Op, id: SendId)
    requires Sound(s) && Enabled(s, op)
    ensures Step(s, op).Some? && Follows(s, Step(s, op).value, op, id)
  {
    StepIsSound(s, op);
    if op.Transmitted? {
      ReportFollows(s, op, id);
    } else if op.Tick? || op.DropIndirect? || op.Abandon? {
      PassFollows(s, op, id);
    }
    assert id in s.table ==> Kept(s, id);
  }

  /** The last operation that moved a send: a dequeue, a report or a poll. */
  function Turn(ops: seq<Op>, id: SendId): (r: Option<nat>)
    ensures r.Some? ==> r.value < |ops|
  {
    if ops == [] then None
    else
      var last, op := |ops| - 1, ops[|ops| - 1];
      if (op.Dequeue? || op.Transmitted? || op.Poll?) && op.id == id then Some(last) else Turn(ops[..last], id)
  }

  function FailedReports(ops: seq<Op>, id: SendId): nat {
    if ops == [] then 0
    else
      var op := ops[|ops| - 1];
      FailedReports(ops[..|ops| - 1], id) + if op.Transmitted? && op.id == id && op.result.Some? then 1 else 0
  }

  predicate Polled(ops: seq<Op>, id: SendId) {
    exists j :: 0 <= j < |ops| && ops[j].Poll? && ops[j].id == id
  }

  predicate AckedAfter(ops: seq<Op>, since: nat, id: SendId) {
    exists j :: since < j < |ops| && ops[j].AckReceived? && ops[j].id == id
  }

  predicate PassedAfter(ops: seq<Op>, since: nat, at: Instant) {
    exists j :: since < j < |ops| && ops[j].Tick? && at <= ops[j].now
  }

  /** The stage of a live send, read off what happened since it was admitted. */
  function StageAfter(admit: Op, ops: seq<Op>, id: SendId): Stage
    requires admit.Enqueue?
  {
    var turn := Turn(ops, id);
    if turn.None? then if admit.poll.None? then Queued else AwaitingPoll
    else match ops[turn.value]
      case Dequeue(_, _) => Transmitting(AckedAfter(ops, turn.value, id))
      case Transmitted(_, result, now, delay) =>
        if result.None? then AwaitingApsAck
        else if admit.poll.Some? then AwaitingPoll
        else if PassedAfter(ops, turn.value, After(now, delay)) then Queued
        else Retrying(After(now, delay))
      case _ => Queued
  }

  /** When a live send lapses: a direct one at its handoff timeout and a held one at its
      persistence time, counted from admission, or at the deadline it was admitted with, which
      replaces the first and caps the second; after its handoff, when its wait for the
      acknowledgement is over, counted from the handoff. */
  function LapsesAt(admit: Op, ops: seq<Op>, id: SendId): Instant
    requires admit.Enqueue?
  {
    var turn := Turn(ops, id);
    if turn.Some? && ops[turn.value].Transmitted? && ops[turn.value].result.None? && admit.awaits.ApsAck?
    then After(ops[turn.value].now, admit.awaits.wait)
    else match (admit.poll, admit.admitted)
      case (None, None) => After(admit.now, admit.tunables.handoffTimeout)
      case (None, Some(deadline)) => deadline
      case (Some(_), None) => After(admit.now, admit.tunables.persistence)
      case (Some(_), Some(deadline)) =>
        var persistence := After(admit.now, admit.tunables.persistence);
        if persistence < deadline then persistence else deadline
  }

  /** The record of a live send is its history. */
  predicate Tells(r: Record, admit: Op, ops: seq<Op>, id: SendId)
    requires admit.Enqueue?
  {
    && r.awaits == admit.awaits && r.poll == admit.poll
    && r.priority == (if Polled(ops, id) then 5 else admit.priority)
    && r.stage == StageAfter(admit, ops, id)
    && r.loaned == r.stage.Transmitting?
    && r.deadline == LapsesAt(admit, ops, id)
    && r.attempts + (if r.poll.None? then FailedReports(ops, id) else 0) == admit.tunables.retries
  }

  /** How one more operation reads. */
  lemma OneMore(ops: seq<Op>, op: Op, id: SendId)
    ensures var all := ops + [op];
      && Turn(all, id) == (if (op.Dequeue? || op.Transmitted? || op.Poll?) && op.id == id then Some(|ops|)
                           else Turn(ops, id))
      && FailedReports(all, id)
         == FailedReports(ops, id) + (if op.Transmitted? && op.id == id && op.result.Some? then 1 else 0)
      && (Polled(all, id) <==> Polled(ops, id) || (op.Poll? && op.id == id))
  {
    var all := ops + [op];
    assert all[..|ops|] == ops;
    assert all[|ops|] == op;
    if j :| 0 <= j < |ops| && ops[j].Poll? && ops[j].id == id {
      assert all[j] == ops[j];
    }
  }

  lemma OneMoreSince(ops: seq<Op>, op: Op, id: SendId, since: nat, at: Instant)
    ensures var all := ops + [op];
      && (AckedAfter(all, since, id)
          <==> AckedAfter(ops, since, id) || (since < |ops| && op.AckReceived? && op.id == id))
      && (PassedAfter(all, since, at)
          <==> PassedAfter(ops, since, at) || (since < |ops| && op.Tick? && at <= op.now))
  {
    var all := ops + [op];
    assert all[|ops|] == op;
    if j :| since < j < |ops| && ops[j].AckReceived? && ops[j].id == id {
      assert all[j] == ops[j];
    }
    if j :| since < j < |ops| && ops[j].Tick? && at <= ops[j].now {
      assert all[j] == ops[j];
    }
  }

  /** The operations that can reach a record in its stage. */
  predicate Reaches(r: Record, op: Op, id: SendId) {
    match op
    case Dequeue(x, _) => x == id ==> r.stage == Queued
    case Transmitted(x, _, _, _) => x == id ==> r.stage.Transmitting?
    case Poll(x, _, _) => x == id ==> r.stage == AwaitingPoll
    case _ => true
  }

  lemma MoveTells(r: Record, admit: Op, ops: seq<Op>, op: Op, id: SendId)
    requires admit.Enqueue? && Tells(r, admit, ops, id) && Reaches(r, op, id) && !Leaves(r, op, id)
    ensures Tells(Moved(r, op, id), admit, ops + [op], id)
  {
    OneMore(ops, op, id);
    var turn := Turn(ops, id);
    var since := if turn.Some? then turn.value else 0;
    OneMoreSince(ops, op, id, since, if r.stage.Retrying? then r.stage.at_ else 0);
    OneMoreSince(ops, op, id, |ops|, 0);
  }

  lemma {:induction false} RunTells(s: Sends, admit: Op, ops: seq<Op>)
    requires Sound(s) && admit.Enqueue? && RunFrom(Admitted(s, admit), ops).Some?
    ensures var t := RunFrom(Admitted(s, admit), ops).value;
      && Sound(t) && s.next < t.next
      && (s.next in t.table ==> Tells(t.table[s.next], admit, ops, s.next))
  {
    AdmitIsSound(s, admit);
    if ops != [] {
      var front, op := ops[..|ops| - 1], ops[|ops| - 1];
      assert ops == front + [op];
      RunTells(s, admit, front);
      var t := RunFrom(Admitted(s, admit), front).value;
      StepIsSound(t, op);
      StepFollows(t, op, s.next);
      if s.next in Step(t, op).value.table {
        assert Kept(t, s.next);
        MoveTells(t.table[s.next], admit, front, op, s.next);
      }
    }
  }

  /** The record of a send that is live after any run is exactly what the run tells. */
  lemma RecordTells(before: seq<Op>, admit: Op, after: seq<Op>)
    requires RunFrom(Empty, before).Some? && admit.Enqueue?
    requires RunFrom(Admitted(RunFrom(Empty, before).value, admit), after).Some?
    ensures var s := RunFrom(Empty, before).value;
      var t := RunFrom(Admitted(s, admit), after).value;
      s.next in t.table ==> Tells(t.table[s.next], admit, after, s.next)
  {
    RunIsSound(Empty, before);
    RunTells(RunFrom(Empty, before).value, admit, after);
  }

  /** Lifetimes are exact: a pass settles a live send if and only if the send is not in the
      radio and the time is up that its admission, or its handoff, set. */
  lemma LifetimeIsExact(before: seq<Op>, admit: Op, after: seq<Op>, now: Instant, order: seq<SendId>)
    requires RunFrom(Empty, before).Some? && admit.Enqueue?
    requires RunFrom(Admitted(RunFrom(Empty, before).value, admit), after).Some?
    requires var s := RunFrom(Empty, before).value;
      var t := RunFrom(Admitted(s, admit), after).value;
      s.next in t.table && Enabled(t, Tick(now, order))
    ensures var s := RunFrom(Empty, before).value;
      var t := RunFrom(Admitted(s, admit), after).value;
      var u := Step(t, Tick(now, order));
      && u.Some?
      && (s.next !in u.value.table
          <==> !t.table[s.next].stage.Transmitting? && LapsesAt(admit, after, s.next) <= now)
  {
    var s := RunFrom(Empty, before).value;
    RunIsSound(Empty, before);
    RunTells(s, admit, after);
    StepFollows(RunFrom(Admitted(s, admit), after).value, Tick(now, order), s.next);
  }

  /** A live send is offered to the radio exactly while it is queued and its time is not up. */
  lemma OfferedIff(before: seq<Op>, admit: Op, after: seq<Op>, now: Instant)
    requires RunFrom(Empty, before).Some? && admit.Enqueue?
    requires RunFrom(Admitted(RunFrom(Empty, before).value, admit), after).Some?
    ensures var s := RunFrom(Empty, before).value;
      var t := RunFrom(Admitted(s, admit), after).value;
      s.next in t.table ==>
        (Ready(t.table[s.next], now)
         <==> StageAfter(admit, after, s.next) == Queued && now < LapsesAt(admit, after, s.next))
  {
    RecordTells(before, admit, after);
  }

  /** An acknowledgement goes to the oldest send that waits for it, wherever that is, and is
      ignored exactly when there is none. */
  lemma AckGoesToOldest(s: Sends, ack: Ack)
    ensures var waiting := set x | x in s.table && s.table[x].awaits.ApsAck? && s.table[x].awaits.ack == ack;
      && (waiting == {} <==> !exists id :: Enabled(s, AckReceived(id, ack)))
      && forall id :: Enabled(s, AckReceived(id, ack)) ==> id in waiting && forall x :: x in waiting ==> id <= x
  {
    var waiting := set x | x in s.table && s.table[x].awaits.ApsAck? && s.table[x].awaits.ack == ack;
    forall id | Enabled(s, AckReceived(id, ack)) ensures id in waiting && forall x :: x in waiting ==> id <= x {
      assert forall x :: x in waiting ==> Expects(s.table[x], ack);
    }
    if waiting != {} {
      var id := Least(waiting);
      assert forall x :: x in s.table && Expects(s.table[x], ack) ==> x in waiting;
      assert Enabled(s, AckReceived(id, ack));
    }
  }

  /** A poll asks for the oldest frame held for the device that still has time, and is ignored
      exactly when there is none. */
  lemma PollAsksForOldest(s: Sends, from: set<Address>, now: Instant)
    ensures var held := set x | x in s.table && s.table[x].stage == AwaitingPoll && s.table[x].poll.Some?
                                && s.table[x].poll.value in from && now < s.table[x].deadline;
      && (held == {} <==> !exists id :: Enabled(s, Poll(id, from, now)))
      && forall id :: Enabled(s, Poll(id, from, now)) ==> id in held && forall x :: x in held ==> id <= x
  {
    var held := set x | x in s.table && s.table[x].stage == AwaitingPoll && s.table[x].poll.Some?
                        && s.table[x].poll.value in from && now < s.table[x].deadline;
    forall id | Enabled(s, Poll(id, from, now)) ensures id in held && forall x :: x in held ==> id <= x {
      assert forall x :: x in held ==> Held(s.table[x], from, now);
    }
    if held != {} {
      var id := Least(held);
      assert forall x :: x in s.table && Held(s.table[x], from, now) ==> x in held;
      assert Enabled(s, Poll(id, from, now));
    }
  }

  // ---------------------------------------------------------------- what is announced

  lemma {:induction false} SettleAllCounts(s: Sends, order: seq<SendId>, why: Record -> Failure, id: SendId)
    requires SettleAll(s, order, why).Some? && Increasing(order)
    ensures var log := SettleAll(s, order, why).value.log;
      && Count(log, Dequeues(id)) == Count(s.log, Dequeues(id))
      && Count(log, Handoffs(id)) == Count(s.log, Handoffs(id))
           + if id in order && id in s.table && s.table[id].stage == AwaitingApsAck then 1 else 0
  {
    if order != [] {
      var front, x := order[..|order| - 1], order[|order| - 1];
      LastIsNew(order);
      assert order == front + [x];
      SettleAllCounts(s, front, why, id);
      SettleAllTable(s, front, why);
      var t := SettleAll(s, front, why).value;
      CountSettlement(t.log, x, Gave(why(t.table[x])), t.table[x].stage == AwaitingApsAck, id);
    }
  }

  /** The radio is handed a frame by a dequeue and by nothing else; and except at shutdown a
      send that leaves while it waits for its acknowledgement has had its handoff announced
      twice, any other that leaves never. */
  predicate Announces(s: Sends, t: Sends, op: Op, id: SendId) {
    && Count(t.log, Dequeues(id)) == Count(s.log, Dequeues(id)) + (if op.Dequeue? && op.id == id then 1 else 0)
    && (id in s.table && id !in t.table && !op.Abandon?
        ==> Count(t.log, Handoffs(id)) == if s.table[id].stage == AwaitingApsAck then 2 else 0)
  }

  lemma PassAnnounces(s: Sends, op: Op, id: SendId)
    requires Sound(s) && (op.Tick? || op.DropIndirect? || op.Abandon?) && Enabled(s, op)
    ensures Step(s, op).Some? && Announces(s, Step(s, op).value, op, id)
  {
    PassFollows(s, op, id);
    assert Accounted(s, id);
    assert id in op.order <==> id in Elements(op.order);
    if op.Tick? {
      SettleAllCounts(s.(table := DueAll(s.table, op.now)), op.order, Overdue, id);
    } else if op.DropIndirect? {
      SettleAllCounts(s, op.order, ExpiredTo, id);
    } else {
      CountCancelled(s.log, op.order, id);
    }
  }

  lemma SettleAnnounces(s: Sends, x: SendId, o: Outcome, id: SendId)
    requires Settle(s, x, o).Some?
    ensures var log := Settle(s, x, o).value.log;
      && Count(log, Dequeues(id)) == Count(s.log, Dequeues(id))
      && Count(log, Handoffs(id)) == Count(s.log, Handoffs(id))
           + if id == x && s.table[id].stage == AwaitingApsAck then 1 else 0
  {
    CountSettlement(s.log, x, o, s.table[x].stage == AwaitingApsAck, id);
  }

  /** A report says at most one thing. */
  lemma ReportLog(s: Sends, x: SendId, result: Option<nat>, now: Instant, delay: Duration)
    requires Sound(s) && x in s.inFlight
    ensures var t := Report(s, x, result, now, delay);
      t.Some? && if x in t.value.table then t.value.log == s.log || t.value.log == s.log + [HandedOff(x)]
                 else exists o :: t.value.log == s.log + [Settled(x, o)]
  {
    assert Kept(s, x);
    assert s.log + [] == s.log;
  }

  lemma ReportAnnounces(s: Sends, op: Op, id: SendId)
    requires Sound(s) && op.Transmitted? && Enabled(s, op)
    ensures Step(s, op).Some? && Announces(s, Step(s, op).value, op, id)
  {
    assert Kept(s, op.id);
    assert Accounted(s, id);
    ReportFollows(s, op, id);
    ReportLog(s, op.id, op.result, op.now, op.retryDelay);
    var log := Step(s, op).value.log;
    CountAppend(s.log, HandedOff(op.id), Dequeues(id));
    if o :| log == s.log + [Settled(op.id, o)] {
      CountAppend(s.log, Settled(op.id, o), Dequeues(id));
      CountAppend(s.log, Settled(op.id, o), Handoffs(id));
    }
  }

  lemma StepAnnounces(s: Sends, op: Op, id: SendId)
    requires Sound(s) && Enabled(s, op)
    ensures Step(s, op).Some? && Announces(s, Step(s, op).value, op, id)
  {
    assert Accounted(s, id);
    match op
    case Transmitted(_, _, _, _) => ReportAnnounces(s, op, id);
    case Dequeue(x, _) =>
      assert Kept(s, x);
      CountAppend(s.log, Dequeued(x), Dequeues(id));
    case AckReceived(x, _) =>
      assert Kept(s, x);
      if !s.table[x].stage.Transmitting? {
        SettleAnnounces(s, x, Done, id);
      }
    case Cancel(x) =>
      if x in s.table && !s.table[x].stage.Transmitting? {
        assert Kept(s, x);
        SettleAnnounces(s, x, Gave(Cancelled), id);
      }
    case Enqueue(_, _, _, _, _, _) =>
    case Poll(_, _, _) =>
    case _ => PassAnnounces(s, op, id);
  }

  function Taken(ops: seq<Op>, id: SendId): nat {
    if ops == [] then 0
    else
      var op := ops[|ops| - 1];
      Taken(ops[..|ops| - 1], id) + if op.Dequeue? && op.id == id then 1 else 0
  }

  /** The transmissions in the log are the dequeues of the run, no more and no fewer. */
  lemma {:induction false} TransmissionsAreDequeues(ops: seq<Op>, id: SendId)
    requires RunFrom(Empty, ops).Some?
    ensures Count(RunFrom(Empty, ops).value.log, Dequeues(id)) == Taken(ops, id)
  {
    if ops != [] {
      var front, op := ops[..|ops| - 1], ops[|ops| - 1];
      TransmissionsAreDequeues(front, id);
      RunIsSound(Empty, front);
      StepAnnounces(RunFrom(Empty, front).value, op, id);
    }
  }

  // ---------------------------------------------------------------- who is next

  /** Frames dequeued one after another at one time go by priority, then by age. */
  lemma DequeuesInOrder(s: Sends, x: SendId, y: SendId, now: Instant)
    requires Best(s.table, x, now) && TakeOut(s, x).Some? && Best(TakeOut(s, x).value.table, y, now)
    ensures s.table[y].priority < s.table[x].priority || (s.table[y].priority == s.table[x].priority && x < y)
  {
    assert y in s.table && Ready(s.table[y], now);
  }

  /** The frame that a poll asks for goes before all others, save older urgent ones. */
  lemma PollGoesFirst(s: Sends, op: Op, x: SendId, now: Instant)
    requires op.Poll? && Enabled(s, op) && now < s.table[op.id].deadline
    requires Best(Step(s, op).value.table, x, now)
    ensures x == op.id || (x < op.id && s.table[x].priority == 5)
  {
    var t := Step(s, op).value.table;
    assert op.id in t && Ready(t[op.id], now);
  }

  /** While any frame is ready, exactly one is next. */
  lemma {:induction false} ReadyIsServed(t: map<SendId, Record>, among: set<SendId>, now: Instant) returns (id: SendId)
    requires among <= t.Keys && exists x :: x in among && Ready(t[x], now)
    ensures id in among && Ready(t[id], now)
    ensures forall x :: x in among && Ready(t[x], now) ==>
              t[x].priority < t[id].priority || (t[x].priority == t[id].priority && id <= x)
    decreases |among|
  {
    var y :| y in among && Ready(t[y], now);
    id := y;
    var rest := among - {y};
    if x :| x in rest && Ready(t[x], now) {
      var z := ReadyIsServed(t, rest, now);
      if t[y].priority < t[z].priority || (t[y].priority == t[z].priority && z <= y) {
        id := z;
      }
    }
  }

  lemma NextExists(t: map<SendId, Record>, now: Instant)
    ensures (exists x :: x in t && Ready(t[x], now)) <==> (exists id :: Best(t, id, now))
    ensures forall x, y :: Best(t, x, now) && Best(t, y, now) ==> x == y
  {
    if x :| x in t && Ready(t[x], now) {
      assert x in t.Keys;
      var id := ReadyIsServed(t, t.Keys, now);
      assert Best(t, id, now);
    }
  }

  // ---------------------------------------------------------------- order of actions

  type Slot = SendConfirms.Progress<nat>

  /** The handoff of a send and its settlement are decided under one lock but carried out
      after it, each list in its own order. However the two interleave, the waiter ends with
      a successful handoff and the final verdict, because settling repeats the handoff. */
  lemma ActionsCommute(p: Slot, v: SendConfirms.Verdict)
    requires p.handedOff.None? && p.delivered.None?
    ensures var h := (x: Slot) => SendConfirms.HandOff(x);
      var end := p.(handedOff := Some(SendConfirms.Accepted), delivered := Some(v));
      && SendConfirms.Settle(h(h(p)), v) == end
      && h(SendConfirms.Settle(h(p), v)) == end
  {
  }

  /** Without the repetition a late handoff would be lost to a failure. */
  lemma RepetitionIsNeeded(p: Slot, v: SendConfirms.Verdict)
    requires p.handedOff.None? && p.delivered.None?
    ensures SendConfirms.HandOff(SendConfirms.Settle(p, v)) == SendConfirms.Settle(SendConfirms.HandOff(p), v)
            <==> v == SendConfirms.Accepted
  {
  }
}
