/** Transaction ids of the Spinel link: which of the seven ids a request is given, and which
    request an inbound frame, a cancellation or a reset ends. */
module Transactions {
  import opened Prelude
  import opened Hdlc
  import opened SpinelFrames
  import PackedIntegers

  /** Outstanding requests by transaction id. A request is named by the order in which it was
      made; it stands for the channel its caller waits on. */
  type Pending = map<nat, nat>

  // ---------------------------------------------------------------- allocation

  predicate IsTid(id: nat) {
    1 <= id <= 7
  }

  /** The id after this one in the cycle from 1 to 7. */
  function Next(id: nat): nat {
    if id >= 7 then 1 else id + 1
  }

  /** The id reached after `k` steps of the cycle. */
  function Ahead(id: nat, k: nat): (r: nat)
    requires IsTid(id) && k <= 7
    ensures IsTid(r)
  {
    if id + k <= 7 then id + k else id + k - 7
  }

  /** How many steps lie between two ids. */
  function Gap(from: nat, to: nat): nat
    requires IsTid(from) && IsTid(to)
  {
    if from <= to then to - from else to - from + 7
  }

  /** The number of ids skipped before a free one; `None` once all seven were tried. */
  function Probe(pending: Pending, start: nat, k: nat): (r: Option<nat>)
    requires IsTid(start) && k <= 7
    ensures r.Some? ==> r.value < 7
    decreases 7 - k
  {
    if k == 7 then None
    else if Ahead(start, k) !in pending then Some(k)
    else Probe(pending, start, k + 1)
  }

  lemma {:induction false} ProbeFinds(pending: Pending, start: nat, k: nat)
    requires IsTid(start) && k <= 7
    requires forall i :: 0 <= i < k ==> Ahead(start, i) in pending
    ensures var r := Probe(pending, start, k);
      if r.Some? then r.value < 7 && Ahead(start, r.value) !in pending
                      && forall i :: 0 <= i < r.value ==> Ahead(start, i) in pending
      else forall id :: IsTid(id) ==> id in pending
    decreases 7 - k
  {
    if k == 7 {
      forall id | IsTid(id) ensures id in pending {
        assert Ahead(start, Gap(start, id)) == id;
      }
    } else if Ahead(start, k) in pending {
      ProbeFinds(pending, start, k + 1);
    }
  }

  /** An id is found exactly when one of the seven is free. */
  lemma ProbeFailsIff(pending: Pending, start: nat)
    requires IsTid(start)
    ensures Probe(pending, start, 0).None? <==> forall id :: IsTid(id) ==> id in pending
  {
    ProbeFinds(pending, start, 0);
    if Probe(pending, start, 0).Some? {
      assert IsTid(Ahead(start, Probe(pending, start, 0).value));
    }
  }

  // ---------------------------------------------------------------- routing

  function Codes(s: seq<byte>): seq<u8> {
    seq(|s|, i requires 0 <= i < |s| => s[i] as u8)
  }

  /** Statuses the enumeration names; those from 112 on announce a reset. */
  predicate KnownStatus(status: nat) {
    status <= 24 || 112 <= status <= 120
  }

  datatype Routed =
    | Answered(request: nat, frame: Frame)
    | Updated(property: nat, value: seq<u8>)
    | ResetSeen(status: nat)
    | Ignored

  type Known = nat -> bool

  /** What a frame of transaction 0 announces. `known` says which property ids are defined;
      0 is the last status. */
  function Announced(f: Frame, known: Known): Routed {
    if f.command != PROP_VALUE_IS then Ignored
    else match PackedIntegers.Unpacked(Codes(f.payload), 3)
      case None => Ignored
      case Some((property, value)) =>
        if property != 0 then if known(property) then Updated(property, value) else Ignored
        else match PackedIntegers.Unpacked(value, 3)
          case None => Ignored
          case Some((status, _)) => if KnownStatus(status) && status >= 112 then ResetSeen(status) else Ignored
  }

  function RouteOf(pending: Pending, f: Frame, known: Known): Routed {
    var id := f.header.transactionId as nat;
    if id == 0 then Announced(f, known)
    else if id in pending then Answered(pending[id], f)
    else Ignored
  }

  function PendingAfter(pending: Pending, f: Frame, known: Known): Pending {
    var id := f.header.transactionId as nat;
    if id != 0 then pending - {id}
    else if Announced(f, known).ResetSeen? then map[]
    else pending
  }

  /** A frame of transaction 0 that reports a property. */
  predicate Reports(f: Frame, property: nat, value: seq<u8>) {
    f.header.transactionId == 0 && f.command == 6 && Codes(f.payload) == PackedIntegers.Packed(property) + value
  }

  lemma ReportIsRead(f: Frame, property: nat, value: seq<u8>)
    requires Reports(f, property, value) && property < PackedIntegers.U21_MAX
    ensures PackedIntegers.Unpacked(Codes(f.payload), 3) == Some((property, value))
  {
    PackedIntegers.PackedRoundTrip(property, value);
  }

  /** A last-status report clears the requests exactly for the statuses 112 to 120, which it
      then announces; every other status is ignored. */
  lemma ResetStatusesClear(pending: Pending, f: Frame, known: Known, status: nat, rest: seq<u8>)
    requires Reports(f, 0, PackedIntegers.Packed(status) + rest) && status < PackedIntegers.U21_MAX
    ensures var reset := 112 <= status <= 120;
      && PendingAfter(pending, f, known) == (if reset then map[] else pending)
      && RouteOf(pending, f, known) == (if reset then ResetSeen(status) else Ignored)
  {
    ReportIsRead(f, 0, PackedIntegers.Packed(status) + rest);
    PackedIntegers.PackedRoundTrip(status, rest);
  }

  /** A report of any other property reaches its receiver exactly if the property is known, and
      clears nothing. */
  lemma UpdatesAreRouted(pending: Pending, f: Frame, known: Known, property: nat, value: seq<u8>)
    requires Reports(f, property, value) && 0 < property < PackedIntegers.U21_MAX
    ensures PendingAfter(pending, f, known) == pending
    ensures RouteOf(pending, f, known) == if known(property) then Updated(property, value) else Ignored
  {
    ReportIsRead(f, property, value);
  }

  /** Any other command of transaction 0 is ignored. */
  lemma OtherCommandsAreIgnored(pending: Pending, f: Frame, known: Known)
    requires f.header.transactionId == 0 && f.command != 6
    ensures PendingAfter(pending, f, known) == pending && RouteOf(pending, f, known) == Ignored
  {
  }

  /** Routing a run of frames. */
  function RouteAll(pending: Pending, frames: seq<Frame>, known: Known): (Pending, seq<Routed>)
    decreases |frames|
  {
    if frames == [] then (pending, [])
    else
      var rest := RouteAll(PendingAfter(pending, frames[0], known), frames[1..], known);
      (rest.0, [RouteOf(pending, frames[0], known)] + rest.1)
  }

  lemma {:induction false} RouteAllConcat(pending: Pending, a: seq<Frame>, b: seq<Frame>, known: Known)
    ensures var first := RouteAll(pending, a, known);
      var second := RouteAll(first.0, b, known);
      RouteAll(pending, a + b, known) == (second.0, first.1 + second.1)
    decreases |a|
  {
    if a == [] {
      assert a + b == b;
      var r := RouteAll(pending, b, known).1;
      assert [] + r == r;
    } else {
      assert (a + b)[1..] == a[1..] + b;
      var next := PendingAfter(pending, a[0], known);
      RouteAllConcat(next, a[1..], b, known);
      Regroup([RouteOf(pending, a[0], known)], RouteAll(next, a[1..], known).1,
              RouteAll(RouteAll(next, a[1..], known).0, b, known).1);
    }
  }

  // ---------------------------------------------------------------- runs

  datatype Op = Prepare | Inbound(frame: Frame) | Cancel(id: nat) | Reset

  /** What an operation did. `busy` are the ids that were pending when one was issued. */
  datatype Event =
    | Issued(busy: set<nat>, skipped: seq<nat>, id: nat, request: nat)
    | Ended(requests: set<nat>)
    | Exhausted

  datatype Session = Session(next: nat, pending: Pending, made: nat, log: seq<Event>)

  const Opened := Session(1, map[], 0, [])

  function Issue(pending: Pending, next: nat, made: nat): Event
    requires IsTid(next)
  {
    var k := Probe(pending, next, 0);
    if k.None? then Exhausted
    else
      Issued(pending.Keys, seq(k.value, i requires 0 <= i < k.value => Ahead(next, i)), Ahead(next, k.value), made)
  }

  function Requests(pending: Pending): set<nat> {
    pending.Values
  }

  function Step(s: Session, op: Op, known: Known): Session
    requires IsTid(s.next)
  {
    match op
    case Prepare =>
      var e := Issue(s.pending, s.next, s.made);
      if e.Issued? then Session(Next(e.id), s.pending[e.id := s.made], s.made + 1, s.log + [e])
      else s.(log := s.log + [e])
    case Inbound(f) => Ending(s, PendingAfter(s.pending, f, known))
    case Cancel(id) => Ending(s, s.pending - {id})
    case Reset => Ending(s, map[])
  }

  function Ending(s: Session, pending: Pending): Session {
    s.(pending := pending, log := s.log + [Ended(Requests(s.pending) - Requests(pending))])
  }

  /** Ids in range, requests distinct and already made. */
  ghost predicate Sound(s: Session) {
    && IsTid(s.next)
    && (forall id :: id in s.pending ==> IsTid(id) && s.pending[id] < s.made)
    && (forall a, b :: a in s.pending && b in s.pending && s.pending[a] == s.pending[b] ==> a == b)
  }

  ghost predicate Shrinks(p: Pending, q: Pending) {
    forall id :: id in q ==> id in p && q[id] == p[id]
  }

  lemma ShrinkingKeepsSound(s: Session, pending: Pending)
    requires Sound(s) && Shrinks(s.pending, pending)
    ensures Sound(s.(pending := pending))
  {
  }

  lemma RouteShrinks(pending: Pending, f: Frame, known: Known)
    ensures Shrinks(pending, PendingAfter(pending, f, known))
  {
  }

  /** Preparing a request, field by field. */
  lemma PrepareStep(next: nat, pending: Pending, made: nat, known: Known)
    requires IsTid(next)
    ensures var k, e := Probe(pending, next, 0), Issue(pending, next, made);
      var t := Step(Session(next, pending, made, []), Prepare, known);
      if k.None? then e.Exhausted? && t == Session(next, pending, made, [e])
      else && e.Issued? && e.id == Ahead(next, k.value) && e.request == made
           && t == Session(Next(e.id), pending[e.id := made], made + 1, [e])
  {
  }

  lemma StepKeepsSound(s: Session, op: Op, known: Known)
    requires Sound(s)
    ensures Sound(Step(s, op, known))
  {
    if op.Prepare? {
      ProbeFinds(s.pending, s.next, 0);
    } else if op.Inbound? {
      assert Shrinks(s.pending, PendingAfter(s.pending, op.frame, known));
    }
  }

  /** How often a request was ended. */
  function Endings(log: seq<Event>, request: nat): nat {
    if log == [] then 0
    else Endings(log[..|log| - 1], request)
         + (var e := log[|log| - 1]; if e.Ended? && request in e.requests then 1 else 0)
  }

  lemma EndingsAppend(log: seq<Event>, e: Event, request: nat)
    ensures Endings(log + [e], request)
            == Endings(log, request) + if e.Ended? && request in e.requests then 1 else 0
  {
    assert (log + [e])[..|log|] == log;
  }

  /** Every request made is still pending or was ended exactly once; no other was. */
  ghost predicate Accounted(s: Session) {
    forall r: nat :: Endings(s.log, r) == if r < s.made && r !in s.pending.Values then 1 else 0
  }

  lemma EndingAccounts(s: Session, pending: Pending)
    requires Sound(s) && Accounted(s) && Shrinks(s.pending, pending)
    ensures Accounted(Ending(s, pending))
  {
    var t := Ending(s, pending);
    forall r: nat ensures Endings(t.log, r) == if r < t.made && r !in t.pending.Values then 1 else 0 {
      EndingsAppend(s.log, t.log[|s.log|], r);
      if r in pending.Values {
        var id :| id in pending && pending[id] == r;
        assert s.pending[id] == r;
      }
      if r in s.pending.Values {
        var id :| id in s.pending && s.pending[id] == r;
        assert r < s.made;
      }
    }
  }

  lemma IssueAccounts(s: Session, e: Event)
    requires Sound(s) && Accounted(s) && e.Issued? && e.id !in s.pending
    ensures Accounted(Session(Next(e.id), s.pending[e.id := s.made], s.made + 1, s.log + [e]))
  {
    var t := Session(Next(e.id), s.pending[e.id := s.made], s.made + 1, s.log + [e]);
    forall r: nat ensures Endings(t.log, r) == if r < t.made && r !in t.pending.Values then 1 else 0 {
      EndingsAppend(s.log, e, r);
      assert t.pending[e.id] == s.made;
      if r in s.pending.Values {
        var id :| id in s.pending && s.pending[id] == r;
        assert t.pending[id] == r;
      }
    }
  }

  lemma StepKeepsAccounts(s: Session, op: Op, known: Known)
    requires Sound(s) && Accounted(s)
    ensures Accounted(Step(s, op, known))
  {
    match op
    case Prepare =>
      ProbeFinds(s.pending, s.next, 0);
      var e := Issue(s.pending, s.next, s.made);
      if e.Issued? {
        IssueAccounts(s, e);
      } else {
        forall r: nat ensures Endings(s.log + [e], r) == Endings(s.log, r) {
          EndingsAppend(s.log, e, r);
        }
      }
    case Inbound(f) => EndingAccounts(s, PendingAfter(s.pending, f, known));
    case Cancel(id) => EndingAccounts(s, s.pending - {id});
    case Reset => EndingAccounts(s, map[]);
  }

  // ---------------------------------------------------------------- the cycle

  /** Where the next allocation starts, read off the log. */
  function Cursor(log: seq<Event>): nat {
    if log == [] then 1
    else
      var e := log[|log| - 1];
      if e.Issued? then Next(e.id) else Cursor(log[..|log| - 1])
  }

  /** An issue walks the cycle from the cursor over busy ids to the first free one. */
  ghost predicate Walks(cursor: nat, e: Event) {
    e.Issued? ==>
      && IsTid(cursor) && |e.skipped| < 7
      && (forall i :: 0 <= i < |e.skipped| ==> e.skipped[i] == Ahead(cursor, i) && e.skipped[i] in e.busy)
      && e.id == Ahead(cursor, |e.skipped|) && e.id !in e.busy
  }

  /** Every issue of the log walks on from where the one before it stopped. */
  ghost predicate Cyclic(log: seq<Event>) {
    forall k :: 0 <= k < |log| ==> Walks(Cursor(log[..k]), log[k])
  }

  lemma CyclicAppend(log: seq<Event>, e: Event)
    requires Cyclic(log) && Walks(Cursor(log), e)
    ensures Cyclic(log + [e])
    ensures Cursor(log + [e]) == if e.Issued? then Next(e.id) else Cursor(log)
  {
    var grown := log + [e];
    assert grown[..|log|] == log;
    forall k | 0 <= k < |grown| ensures Walks(Cursor(grown[..k]), grown[k]) {
      if k < |log| {
        assert grown[..k] == log[..k];
      }
    }
  }

  lemma StepKeepsCycle(s: Session, op: Op, known: Known)
    requires Sound(s) && Cyclic(s.log) && s.next == Cursor(s.log)
    ensures var t := Step(s, op, known); Cyclic(t.log) && t.next == Cursor(t.log)
  {
    ProbeFinds(s.pending, s.next, 0);
    var e := Step(s, op, known).log[|s.log|];
    CyclicAppend(s.log, e);
  }

  /** The request an id was last issued to. */
  function LastIssue(log: seq<Event>, id: nat): Option<nat> {
    if log == [] then None
    else
      var e := log[|log| - 1];
      if e.Issued? && e.id == id then Some(e.request) else LastIssue(log[..|log| - 1], id)
  }

  /** Whoever is pending under an id is the last one it was issued to. */
  ghost predicate Current(s: Session) {
    forall id :: id in s.pending ==> LastIssue(s.log, id) == Some(s.pending[id])
  }

  lemma LastIssueAppends(log: seq<Event>, e: Event, id: nat)
    ensures LastIssue(log + [e], id) == if e.Issued? && e.id == id then Some(e.request) else LastIssue(log, id)
  {
    assert (log + [e])[..|log|] == log;
  }

  lemma EndingKeepsCurrent(s: Session, pending: Pending)
    requires Current(s) && Shrinks(s.pending, pending)
    ensures Current(Ending(s, pending))
  {
    var t := Ending(s, pending);
    forall id | id in t.pending ensures LastIssue(t.log, id) == Some(t.pending[id]) {
      LastIssueAppends(s.log, t.log[|s.log|], id);
    }
  }

  lemma PrepareKeepsCurrent(s: Session, known: Known)
    requires IsTid(s.next) && Current(s)
    ensures Current(Step(s, Prepare, known))
  {
    var t := Step(s, Prepare, known);
    forall id | id in t.pending ensures LastIssue(t.log, id) == Some(t.pending[id]) {
      LastIssueAppends(s.log, Issue(s.pending, s.next, s.made), id);
    }
  }

  lemma StepKeepsCurrent(s: Session, op: Op, known: Known)
    requires IsTid(s.next) && Current(s)
    ensures Current(Step(s, op, known))
  {
    match op
    case Prepare => PrepareKeepsCurrent(s, known);
    case Inbound(f) =>
      RouteShrinks(s.pending, f, known);
      EndingKeepsCurrent(s, PendingAfter(s.pending, f, known));
    case Cancel(id) => EndingKeepsCurrent(s, s.pending - {id});
    case Reset => EndingKeepsCurrent(s, map[]);
  }

  function Run(ops: seq<Op>, known: Known): Session
    ensures IsTid(Run(ops, known).next)
  {
    if ops == [] then Opened
    else Step(Run(ops[..|ops| - 1], known), ops[|ops| - 1], known)
  }

  /** What every run keeps. */
  lemma {:induction false} RunIsSound(ops: seq<Op>, known: Known)
    ensures var s := Run(ops, known);
      Sound(s) && Accounted(s) && Current(s) && Cyclic(s.log) && s.next == Cursor(s.log)
  {
    if ops != [] {
      var s, op := Run(ops[..|ops| - 1], known), ops[|ops| - 1];
      RunIsSound(ops[..|ops| - 1], known);
      StepKeepsSound(s, op, known);
      StepKeepsAccounts(s, op, known);
      StepKeepsCurrent(s, op, known);
      StepKeepsCycle(s, op, known);
    }
  }

  lemma AllSeven(ids: set<nat>)
    requires forall id :: id in ids ==> IsTid(id)
    ensures (forall id :: IsTid(id) ==> id in ids) <==> ids == {1, 2, 3, 4, 5, 6, 7}
  {
    if forall id :: IsTid(id) ==> id in ids {
      assert IsTid(1) && IsTid(2) && IsTid(3) && IsTid(4) && IsTid(5) && IsTid(6) && IsTid(7);
    }
  }

  /** Transaction ids over every run: an id that is issued lies in 1..7 and was free; an
      allocation fails exactly when all seven are pending. */
  lemma IdsOverRuns(ops: seq<Op>, known: Known)
    ensures var s := Run(ops, known);
      var e := Issue(s.pending, s.next, s.made);
      && (e.Issued? ==> IsTid(e.id) && e.id !in s.pending && |e.skipped| < 7)
      && (e.Exhausted? <==> s.pending.Keys == {1, 2, 3, 4, 5, 6, 7})
  {
    RunIsSound(ops, known);
    var s := Run(ops, known);
    ProbeFinds(s.pending, s.next, 0);
    ProbeFailsIff(s.pending, s.next);
    AllSeven(s.pending.Keys);
  }

  /** A request ends at most once, after it was made and never while it is pending; one that
      is no longer pending has ended. */
  lemma RequestsEndOnce(ops: seq<Op>, known: Known, r: nat)
    ensures var s := Run(ops, known);
      && Endings(s.log, r) <= 1
      && (Endings(s.log, r) == 1 <==> r < s.made && r !in s.pending.Values)
  {
    RunIsSound(ops, known);
  }

  /** A response reaches the request its id was last issued to, and ends it; one that
      answers nothing changes nothing; a reset ends all. */
  lemma ResponsesReachTheirRequest(ops: seq<Op>, known: Known, f: Frame)
    ensures var s := Run(ops, known);
      var id, r := f.header.transactionId as nat, RouteOf(s.pending, f, known);
      var after := PendingAfter(s.pending, f, known);
      && (r.Answered? <==> id != 0 && id in s.pending)
      && (r.Answered? ==> Some(r.request) == LastIssue(s.log, id) && r.frame == f
                          && r.request !in after.Values && after.Keys == s.pending.Keys - {id})
      && (r.ResetSeen? ==> id == 0 && after == map[])
      && (!r.Answered? && !r.ResetSeen? ==> after == s.pending)
  {
    RunIsSound(ops, known);
  }

  lemma EndedByRemoval(p: Pending, id: nat)
    requires forall a, b :: a in p && b in p && p[a] == p[b] ==> a == b
    ensures p.Values - (p - {id}).Values == if id in p then {p[id]} else {}
  {
    var q := p - {id};
    forall r | r in p.Values ensures r in q.Values <==> id !in p || r != p[id] {
      var x :| x in p && p[x] == r;
      if x != id {
        assert x in q && q[x] == r;
      }
    }
  }

  /** One request ended, and the log says so. */
  ghost predicate EndsOne(s: Session, t: Session, id: nat) {
    && id !in t.pending && (forall x :: x in s.pending && x != id ==> x in t.pending && t.pending[x] == s.pending[x])
    && t.log == s.log + [Ended(if id in s.pending then {s.pending[id]} else {})]
  }

  ghost predicate EndsAll(s: Session, t: Session) {
    t.pending == map[] && t.log == s.log + [Ended(s.pending.Values)]
  }

  lemma EndingSteps(s: Session, id: nat, known: Known)
    requires Sound(s)
    ensures EndsOne(s, Step(s, Cancel(id), known), id) && EndsAll(s, Step(s, Reset, known))
  {
    EndedByRemoval(s.pending, id);
    assert Requests(s.pending) - Requests(map[]) == s.pending.Values;
  }

  lemma RunOne(ops: seq<Op>, op: Op, known: Known)
    ensures Run(ops + [op], known) == Step(Run(ops, known), op, known)
  {
    assert (ops + [op])[..|ops|] == ops;
  }

  /** After any run a cancel ends the request that has the id, and only that; a reset ends all. */
  lemma CancelEndsOne(ops: seq<Op>, id: nat, known: Known)
    ensures EndsOne(Run(ops, known), Run(ops + [Cancel(id)], known), id)
    ensures EndsAll(Run(ops, known), Run(ops + [Reset], known))
  {
    RunIsSound(ops, known);
    EndingSteps(Run(ops, known), id, known);
    RunOne(ops, Cancel(id), known);
    RunOne(ops, Reset, known);
  }

  /** An id passed over on the walk towards another one. */
  predicate Visited(e: Event, u: nat) {
    e.Issued? && (u in e.skipped || u == e.id)
  }

  lemma CursorMoves(log: seq<Event>, i: nat)
    requires i < |log|
    ensures Cursor(log[..i + 1]) == if log[i].Issued? then Next(log[i].id) else Cursor(log[..i])
  {
    assert log[..i + 1][..i] == log[..i];
  }

  /** A walk passes every id within its reach; ids it stops short of come nearer. */
  lemma WalkReaches(cursor: nat, e: Event, u: nat)
    requires e.Issued? && Walks(cursor, e) && IsTid(cursor) && IsTid(u)
    ensures Gap(cursor, u) <= |e.skipped| ==> Visited(e, u)
    ensures Gap(cursor, u) > |e.skipped| ==>
      e.id != u && IsTid(Next(e.id)) && Gap(Next(e.id), u) == Gap(cursor, u) - (|e.skipped| + 1)
  {
    var gap := Gap(cursor, u);
    if gap > |e.skipped| {
      GapsShrink(cursor, |e.skipped|, u);
    } else {
      assert Ahead(cursor, gap) == u;
    }
  }

  /** Somewhere up to the event that issues `t`, the walk from before `t` passes `u`. */
  lemma {:induction false} WalkPasses(log: seq<Event>, i: nat, j: nat, t: nat, u: nat) returns (k: nat)
    requires Cyclic(log) && i <= j < |log| && log[j].Issued? && log[j].id == t
    requires IsTid(t) && IsTid(u) && IsTid(Cursor(log[..i]))
    requires Gap(Cursor(log[..i]), u) < Gap(Cursor(log[..i]), t)
    ensures i <= k <= j && Visited(log[k], u)
    decreases j - i
  {
    var c, e := Cursor(log[..i]), log[i];
    CursorMoves(log, i);
    if !e.Issued? {
      k := WalkPasses(log, i + 1, j, t, u);
    } else {
      assert Walks(c, e);
      WalkReaches(c, e, u);
      WalkReaches(c, e, t);
      if Gap(c, u) <= |e.skipped| {
        k := i;
      } else {
        k := WalkPasses(log, i + 1, j, t, u);
      }
    }
  }

  lemma {:induction false} TurnsInLog(log: seq<Event>, i: nat, j: nat, u: nat) returns (k: nat)
    requires Cyclic(log) && i < j < |log| && log[i].Issued? && log[j].Issued? && log[i].id == log[j].id != u && IsTid(u)
    ensures i < k <= j && Visited(log[k], u)
  {
    var t := log[i].id;
    assert Walks(Cursor(log[..i]), log[i]);
    CursorMoves(log, i);
    assert Gap(Next(t), t) == 6;
    k := WalkPasses(log, i + 1, j, t, u);
  }

  lemma VisitedWhileBusy(cursor: nat, e: Event, u: nat)
    requires Walks(cursor, e) && Visited(e, u) && u != e.id
    ensures u in e.skipped && u in e.busy
  {
  }

  lemma GapsShrink(c: nat, walked: nat, u: nat)
    requires IsTid(c) && IsTid(u) && walked < Gap(c, u)
    ensures Gap(Next(Ahead(c, walked)), u) == Gap(c, u) - (walked + 1)
    ensures Ahead(c, walked) != u
  {
  }

  /** Between two issues of one id every other id was issued, or skipped while pending. */
  lemma IssuesTakeTurns(ops: seq<Op>, known: Known, i: nat, j: nat, u: nat) returns (k: nat)
    requires var log := Run(ops, known).log;
      i < j < |log| && log[i].Issued? && log[j].Issued? && log[i].id == log[j].id != u && IsTid(u)
    ensures var log := Run(ops, known).log;
      && i < k <= j && log[k].Issued?
      && ((k < j && u == log[k].id) || (u in log[k].skipped && u in log[k].busy))
  {
    RunIsSound(ops, known);
    var log := Run(ops, known).log;
    k := TurnsInLog(log, i, j, u);
    assert Walks(Cursor(log[..k]), log[k]);
    if u != log[k].id {
      VisitedWhileBusy(Cursor(log[..k]), log[k], u);
    }
  }
}
