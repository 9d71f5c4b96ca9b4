/** The send-confirm pipeline as a concurrent protocol. Resolvers write verdicts under a
    slot's lock and notify after releasing it; requesters register and insert under the
    tracker's lock and then notify; one reactor takes a coalescing permit and sweeps, reading
    one slot at a time. Every step below is one critical section, and any interleaving of
    steps is a run. */
module ConfirmPipeline {
  import opened Prelude
  import opened SendConfirms

  /** Where a send stands with the tracker. `Lost` sends were dropped by a restart, or displaced
      by a later send under the same id. */
  datatype Stage = Untracked | Registered | Tracked | Retired | Lost

  datatype Slot = Slot(kind: ConfirmKind, id: RequestId, progress: Progress<nat>, stage: Stage)

  datatype Entry = Entry(slot: nat, emitted: bool)

  /** The reactor waits, or holds a taken permit, or sweeps with the tracker locked: ids not
      yet read, ids to remove at the end, and the frames so far. */
  datatype Reactor = Waiting | Woken | Sweeping(todo: set<RequestId>, done: set<RequestId>, out: seq<Frame>)

  datatype Lock = Free | ByRequester(slot: nat) | ByReactor

  /** A confirm frame, with the send it speaks of. */
  datatype Frame = Frame(slot: nat, confirm: Confirm)

  /** Wakes are numbered by tracker; `epoch` is the current one, and `permit` its stored
      permit. `notifying` holds the wakes that someone is about to notify, having released
      the lock under which the reason arose. `log` is what was sent to the client. */
  datatype Sys = Sys(slots: seq<Slot>, entries: map<RequestId, Entry>, epoch: nat, permit: bool, lock: Lock,
                     reactor: Reactor, notifying: multiset<nat>, log: seq<Frame>)

  const Boot := Sys([], map[], 0, false, Free, Waiting, multiset{}, [])

  datatype Act =
    | Send(kind: ConfirmKind, id: RequestId)
    | WriteHandOff(slot: nat)
    | WriteSettled(slot: nat, verdict: Verdict)
    | NotifyOne(wake: nat)
    | Register(slot: nat)
    | Insert(slot: nat)
    | TakePermit
    | LockForSweep
    | ReadEntry(id: RequestId)
    | FinishSweep
    | Restart

  /** When a step can happen. A send is settled once and tracked once. */
  predicate Enabled(s: Sys, a: Act) {
    match a
    case Send(_, _) => true
    case WriteHandOff(k) => k < |s.slots|
    case WriteSettled(k, _) => k < |s.slots| && s.slots[k].progress.delivered.None?
    case NotifyOne(w) => w in s.notifying
    case Register(k) => k < |s.slots| && s.slots[k].stage == Untracked && s.lock == Free
    case Insert(k) => s.lock == ByRequester(k) && k < |s.slots|
    case TakePermit => s.reactor == Waiting && s.permit
    case LockForSweep => s.reactor == Woken && s.lock == Free
    case ReadEntry(id) => s.reactor.Sweeping? && id in s.reactor.todo && (forall x :: x in s.reactor.todo ==> id <= x)
    case FinishSweep => s.reactor.Sweeping? && s.reactor.todo == {}
    case Restart => s.lock == Free
  }

  function Notified(s: Sys, p: Progress<nat>): multiset<nat> {
    if p.wake.Some? then s.notifying + multiset{p.wake.value} else s.notifying
  }

  function Tagged(slot: nat, confirms: seq<Confirm>): seq<Frame> {
    if confirms == [] then []
    else Tagged(slot, confirms[..|confirms| - 1]) + [Frame(slot, confirms[|confirms| - 1])]
  }

  /** What reading an entry now would yield. */
  function Read(s: Sys, id: RequestId): Swept
    requires Linked(s, id)
  {
    var e := s.entries[id];
    SweepEntry(s.slots[e.slot].kind, id, e.emitted, s.slots[e.slot].progress)
  }

  /** An entry belongs to a tracked send of its id. */
  predicate Linked(s: Sys, id: RequestId) {
    && id in s.entries && s.entries[id].slot < |s.slots|
    && s.slots[s.entries[id].slot].id == id && s.slots[s.entries[id].slot].stage == Tracked
  }

  function Written(slots: seq<Slot>, k: nat, p: Progress<nat>): seq<Slot>
    requires k < |slots|
  {
    slots[k := slots[k].(progress := p)]
  }

  /** Sends whose entries are removed. */
  function Retiring(slots: seq<Slot>, gone: set<RequestId>): seq<Slot> {
    seq(|slots|, k requires 0 <= k < |slots| =>
      if slots[k].stage == Tracked && slots[k].id in gone then slots[k].(stage := Retired) else slots[k])
  }

  /** Inserting under an id replaces the entry that had it. */
  function Displacing(slots: seq<Slot>, id: RequestId): seq<Slot> {
    seq(|slots|, k requires 0 <= k < |slots| =>
      if slots[k].stage == Tracked && slots[k].id == id then slots[k].(stage := Lost) else slots[k])
  }

  function Losing(slots: seq<Slot>): seq<Slot> {
    seq(|slots|, k requires 0 <= k < |slots| =>
      if slots[k].stage == Tracked then slots[k].(stage := Lost) else slots[k])
  }

  // One function per kind of critical section.

  function Spawned(s: Sys, kind: ConfirmKind, id: RequestId): Sys {
    s.(slots := s.slots + [Slot(kind, id, Progress(None, None, None), Untracked)])
  }

  function Resolved(s: Sys, k: nat, p: Progress<nat>): Sys
    requires k < |s.slots|
  {
    s.(slots := Written(s.slots, k, p), notifying := Notified(s, s.slots[k].progress))
  }

  function AfterNotify(s: Sys, wake: nat): Sys {
    s.(notifying := s.notifying - multiset{wake}, permit := s.permit || wake == s.epoch)
  }

  function AfterRegister(s: Sys, k: nat): Sys
    requires k < |s.slots|
  {
    var x := s.slots[k];
    var p := x.progress.(wake := Some(s.epoch));
    s.(lock := ByRequester(k), slots := s.slots[k := x.(progress := p, stage := Registered)])
  }

  function AfterInsert(s: Sys, k: nat): Sys
    requires k < |s.slots|
  {
    s.(lock := Free, slots := Displacing(s.slots, s.slots[k].id)[k := s.slots[k].(stage := Tracked)],
       entries := s.entries[s.slots[k].id := Entry(k, false)], notifying := s.notifying + multiset{s.epoch})
  }

  function AfterLock(s: Sys): Sys {
    s.(lock := ByReactor, reactor := Sweeping(s.entries.Keys, {}, []))
  }

  function AfterRead(s: Sys, id: RequestId): Sys
    requires Linked(s, id) && s.reactor.Sweeping?
  {
    var r, e, sweep := Read(s, id), s.entries[id], s.reactor;
    s.(entries := s.entries[id := e.(emitted := r.emitted)],
       reactor := Sweeping(sweep.todo - {id}, if r.done then sweep.done + {id} else sweep.done,
                           sweep.out + Tagged(e.slot, r.frames)))
  }

  function AfterFinish(s: Sys): Sys
    requires s.reactor.Sweeping?
  {
    s.(lock := Free, reactor := Waiting, entries := s.entries - s.reactor.done,
       slots := Retiring(s.slots, s.reactor.done), log := s.log + s.reactor.out)
  }

  function AfterRestart(s: Sys): Sys {
    s.(entries := map[], epoch := s.epoch + 1, permit := false, reactor := Waiting, slots := Losing(s.slots))
  }

  function Step(s: Sys, a: Act): Sys
    requires Enabled(s, a)
  {
    match a
    case Send(kind, id) => Spawned(s, kind, id)
    case WriteHandOff(k) =>
      var p := s.slots[k].progress;
      if p.handedOff.Some? then s else Resolved(s, k, HandOff(p))
    case WriteSettled(k, v) => Resolved(s, k, Settle(s.slots[k].progress, v))
    case NotifyOne(w) => AfterNotify(s, w)
    case Register(k) => AfterRegister(s, k)
    case Insert(k) => AfterInsert(s, k)
    case TakePermit => s.(permit := false, reactor := Woken)
    case LockForSweep => AfterLock(s)
    case ReadEntry(id) => if Linked(s, id) then AfterRead(s, id) else s
    case FinishSweep => AfterFinish(s)
    case Restart => AfterRestart(s)
  }

  // ---------------------------------------------------------------- structure

  /** A tracked send has its entry. */
  predicate Listed(s: Sys, k: nat)
    requires k < |s.slots|
  {
    s.slots[k].stage == Tracked ==> s.slots[k].id in s.entries && s.entries[s.slots[k].id].slot == k
  }

  /** A send is registered exactly while its requester holds the lock. */
  predicate Owned(s: Sys, k: nat)
    requires k < |s.slots|
  {
    s.slots[k].stage == Registered <==> s.lock == ByRequester(k)
  }

  /** The lock is held by whom it says, and a sweep covers only entries. */
  predicate Locked(s: Sys) {
    && (s.lock.ByRequester? ==> s.lock.slot < |s.slots|)
    && (s.lock == ByReactor <==> s.reactor.Sweeping?)
    && (s.reactor.Sweeping? ==> s.reactor.todo <= s.entries.Keys && s.reactor.done <= s.entries.Keys - s.reactor.todo)
  }

  ghost predicate Structured(s: Sys) {
    && (forall id :: id in s.entries ==> Linked(s, id))
    && (forall k :: 0 <= k < |s.slots| ==> Listed(s, k))
    && (forall k :: 0 <= k < |s.slots| ==> Owned(s, k))
    && Locked(s)
  }

  lemma SpawnStructure(s: Sys, kind: ConfirmKind, id: RequestId)
    requires Structured(s)
    ensures Structured(Spawned(s, kind, id))
  {
    var t := Spawned(s, kind, id);
    forall k | 0 <= k < |t.slots| ensures Listed(t, k) && Owned(t, k) {
      if k < |s.slots| {
        assert Listed(s, k) && Owned(s, k);
      }
    }
    assert forall x :: x in t.entries ==> Linked(s, x);
  }

  lemma ResolveStructure(s: Sys, k: nat, p: Progress<nat>)
    requires Structured(s) && k < |s.slots|
    ensures Structured(Resolved(s, k, p))
  {
    var t := Resolved(s, k, p);
    forall j | 0 <= j < |t.slots| ensures Listed(t, j) && Owned(t, j) {
      assert Listed(s, j) && Owned(s, j);
    }
    assert forall x :: x in t.entries ==> Linked(s, x);
  }

  lemma RegisterStructure(s: Sys, k: nat)
    requires Structured(s) && Enabled(s, Register(k))
    ensures Structured(AfterRegister(s, k))
  {
    var t := AfterRegister(s, k);
    forall j | 0 <= j < |t.slots| ensures Listed(t, j) && Owned(t, j) {
      assert Listed(s, j) && Owned(s, j);
    }
    assert forall x :: x in t.entries ==> Linked(s, x);
  }

  lemma InsertStructure(s: Sys, k: nat)
    requires Structured(s) && s.lock == ByRequester(k)
    ensures Structured(AfterInsert(s, k))
  {
    var t := AfterInsert(s, k);
    forall j | 0 <= j < |t.slots| ensures Listed(t, j) && Owned(t, j) {
      assert Listed(s, j) && Owned(s, j);
    }
    forall x | x in t.entries ensures Linked(t, x) {
      if x in s.entries {
        assert Linked(s, x);
      }
    }
  }

  lemma ReadStructure(s: Sys, id: RequestId)
    requires Structured(s) && s.reactor.Sweeping? && id in s.reactor.todo
    ensures Structured(AfterRead(s, id))
  {
    var t := AfterRead(s, id);
    forall j | 0 <= j < |t.slots| ensures Listed(t, j) && Owned(t, j) {
      assert Listed(s, j) && Owned(s, j);
    }
    assert forall x :: x in t.entries ==> Linked(s, x);
  }

  lemma FinishStructure(s: Sys)
    requires Structured(s) && s.reactor.Sweeping? && s.reactor.todo == {}
    ensures Structured(AfterFinish(s))
  {
    var t := AfterFinish(s);
    forall j | 0 <= j < |t.slots| ensures Listed(t, j) && Owned(t, j) {
      assert Listed(s, j) && Owned(s, j);
    }
    forall x | x in t.entries ensures Linked(t, x) {
      assert Linked(s, x);
    }
  }

  lemma RestartStructure(s: Sys)
    requires Structured(s) && s.lock == Free
    ensures Structured(AfterRestart(s))
  {
    var t := AfterRestart(s);
    forall j | 0 <= j < |t.slots| ensures Listed(t, j) && Owned(t, j) {
      assert Listed(s, j) && Owned(s, j);
    }
  }

  /** Steps that leave the sends and the table as they are. */
  lemma ReactorStructure(s: Sys, t: Sys)
    requires Structured(s) && t.slots == s.slots && t.entries == s.entries && Locked(t)
    requires t.lock == s.lock || (!t.lock.ByRequester? && !s.lock.ByRequester?)
    ensures Structured(t)
  {
    forall j | 0 <= j < |t.slots| ensures Listed(t, j) && Owned(t, j) {
      assert Listed(s, j) && Owned(s, j);
    }
    assert forall x :: x in t.entries ==> Linked(s, x);
  }

  lemma StepKeepsStructure(s: Sys, a: Act)
    requires Structured(s) && Enabled(s, a)
    ensures Structured(Step(s, a))
  {
    match a
    case Send(kind, id) => SpawnStructure(s, kind, id);
    case WriteHandOff(k) => ResolveStructure(s, k, HandOff(s.slots[k].progress));
    case WriteSettled(k, v) => ResolveStructure(s, k, Settle(s.slots[k].progress, v));
    case NotifyOne(w) => ReactorStructure(s, Step(s, a));
    case Register(k) => RegisterStructure(s, k);
    case Insert(k) => InsertStructure(s, k);
    case TakePermit => ReactorStructure(s, Step(s, a));
    case LockForSweep => ReactorStructure(s, Step(s, a));
    case ReadEntry(id) => ReadStructure(s, id);
    case FinishSweep => FinishStructure(s);
    case Restart => RestartStructure(s);
  }

  // ---------------------------------------------------------------- what each client is told

  /** The confirms of one send among these frames, in order. */
  function Said(frames: seq<Frame>, k: nat): seq<Confirm> {
    if frames == [] then []
    else
      var last := frames[|frames| - 1];
      Said(frames[..|frames| - 1], k) + if last.slot == k then [last.confirm] else []
  }

  lemma {:induction false} SaidTagged(frames: seq<Frame>, j: nat, confirms: seq<Confirm>, k: nat)
    ensures Said(frames + Tagged(j, confirms), k) == Said(frames, k) + if j == k then confirms else []
    decreases |confirms|
  {
    if confirms == [] {
      assert frames + [] == frames;
    } else {
      var n := |confirms| - 1;
      var more := frames + Tagged(j, confirms[..n]);
      var whole := more + [Frame(j, confirms[n])];
      SaidTagged(frames, j, confirms[..n], k);
      assert frames + Tagged(j, confirms) == whole;
      assert whole[..|whole| - 1] == more;
      assert confirms[..n] + [confirms[n]] == confirms;
      Regroup(Said(frames, k), confirms[..n], [confirms[n]]);
    }
  }

  /** All frames so far, including those a sweep has collected but not handed over. */
  function Emitted(s: Sys): seq<Frame> {
    if s.reactor.Sweeping? then s.log + s.reactor.out else s.log
  }

  predicate InDone(s: Sys, id: RequestId) {
    s.reactor.Sweeping? && id in s.reactor.done
  }

  /** What a client was told of a send, by where the send stands. */
  predicate Disciplined(s: Sys, k: nat)
    requires k < |s.slots|
  {
    var x, said := s.slots[k], Said(Emitted(s), k);
    var script := Script(x.kind, x.id, x.progress);
    match x.stage
    case Untracked => said == []
    case Registered => said == []
    case Tracked =>
      && x.id in s.entries
      && if InDone(s, x.id) then said == script && Complete(x.kind, x.progress)
         else && Halfway(x.kind, s.entries[x.id].emitted, x.progress)
              && said == Told(x.kind, x.id, s.entries[x.id].emitted)
    case Retired => said == script && Complete(x.kind, x.progress)
    case Lost => said <= script
  }

  /** A send the tracker knows of wakes the current reactor. */
  predicate Wired(s: Sys, k: nat)
    requires k < |s.slots|
  {
    && Backfilled(s.slots[k].progress)
    && (s.slots[k].stage == Registered || s.slots[k].stage == Tracked ==> s.slots[k].progress.wake == Some(s.epoch))
  }

  /** Nothing was said of sends that do not exist. */
  ghost predicate Silent(s: Sys) {
    forall k: nat :: k >= |s.slots| ==> Said(Emitted(s), k) == []
  }

  ghost predicate Orderly(s: Sys) {
    && Silent(s)
    && (forall k :: 0 <= k < |s.slots| ==> Disciplined(s, k))
    && (forall k :: 0 <= k < |s.slots| ==> Wired(s, k))
  }

  lemma SpawnOrderly(s: Sys, kind: ConfirmKind, id: RequestId)
    requires Orderly(s)
    ensures Orderly(Spawned(s, kind, id))
  {
    var t := Spawned(s, kind, id);
    assert Emitted(t) == Emitted(s) && Said(Emitted(s), |s.slots|) == [];
    forall k | 0 <= k < |t.slots| ensures Disciplined(t, k) && Wired(t, k) {
      if k < |s.slots| {
        assert Disciplined(s, k) && Wired(s, k);
      }
    }
  }

  lemma ResolveOrderly(s: Sys, k: nat, p: Progress<nat>)
    requires Orderly(s) && k < |s.slots| && Grows(s.slots[k].progress, p) && Backfilled(p)
    requires p.wake == s.slots[k].progress.wake
    ensures Orderly(Resolved(s, k, p))
  {
    var t, x := Resolved(s, k, p), s.slots[k];
    assert Emitted(t) == Emitted(s);
    forall j | 0 <= j < |t.slots| ensures Disciplined(t, j) && Wired(t, j) {
      assert Disciplined(s, j) && Wired(s, j);
      if j == k {
        ScriptGrows(x.kind, x.id, x.progress, p);
      }
    }
  }

  lemma RegisterOrderly(s: Sys, k: nat)
    requires Structured(s) && Orderly(s) && Enabled(s, Register(k))
    ensures Orderly(AfterRegister(s, k))
  {
    var t := AfterRegister(s, k);
    assert Emitted(t) == Emitted(s);
    forall j | 0 <= j < |t.slots| ensures Disciplined(t, j) && Wired(t, j) {
      assert Disciplined(s, j) && Wired(s, j);
    }
  }

  lemma InsertOrderly(s: Sys, k: nat)
    requires Structured(s) && Orderly(s) && s.lock == ByRequester(k)
    ensures Orderly(AfterInsert(s, k))
  {
    var t := AfterInsert(s, k);
    assert Emitted(t) == Emitted(s);
    assert Owned(s, k);
    forall j | 0 <= j < |t.slots| ensures Disciplined(t, j) && Wired(t, j) {
      assert Disciplined(s, j) && Wired(s, j) && Listed(s, j);
      var x := s.slots[j];
      if x.stage == Tracked {
        SweepCompletesScript(x.kind, x.id, s.entries[x.id].emitted, x.progress);
      }
    }
  }

  lemma ReadSays(s: Sys, id: RequestId, k: nat)
    requires Linked(s, id) && s.reactor.Sweeping?
    ensures Said(Emitted(AfterRead(s, id)), k)
         == Said(Emitted(s), k) + if s.entries[id].slot == k then Read(s, id).frames else []
  {
    var e, r := s.entries[id], Read(s, id);
    Regroup(s.log, s.reactor.out, Tagged(e.slot, r.frames));
    SaidTagged(Emitted(s), e.slot, r.frames, k);
  }

  /** The entry that was read has now said all its verdicts call for. */
  lemma ReadDisciplines(s: Sys, id: RequestId)
    requires Linked(s, id) && s.reactor.Sweeping? && id !in s.reactor.done
    requires Disciplined(s, s.entries[id].slot) && Wired(s, s.entries[id].slot)
    ensures Disciplined(AfterRead(s, id), s.entries[id].slot)
  {
    var e := s.entries[id];
    var x := s.slots[e.slot];
    ReadSays(s, id, e.slot);
    SweepCompletesScript(x.kind, id, e.emitted, x.progress);
  }

  lemma ReadSparesOthers(s: Sys, id: RequestId, j: nat)
    requires Linked(s, id) && s.reactor.Sweeping? && j < |s.slots| && j != s.entries[id].slot
    requires Disciplined(s, j) && Listed(s, j)
    ensures Disciplined(AfterRead(s, id), j)
  {
    ReadSays(s, id, j);
    assert Said(Emitted(s), j) + [] == Said(Emitted(s), j);
  }

  lemma ReadOrderly(s: Sys, id: RequestId)
    requires Structured(s) && Orderly(s) && s.reactor.Sweeping? && id in s.reactor.todo
    ensures Orderly(AfterRead(s, id))
  {
    var t := AfterRead(s, id);
    forall k: nat | k >= |t.slots| ensures Said(Emitted(t), k) == [] {
      ReadSays(s, id, k);
    }
    forall j | 0 <= j < |t.slots| ensures Disciplined(t, j) && Wired(t, j) {
      assert Disciplined(s, j) && Wired(s, j) && Listed(s, j);
      if j == s.entries[id].slot {
        ReadDisciplines(s, id);
      } else {
        ReadSparesOthers(s, id, j);
      }
    }
  }

  lemma FinishOrderly(s: Sys)
    requires Structured(s) && Orderly(s) && s.reactor.Sweeping? && s.reactor.todo == {}
    ensures Orderly(AfterFinish(s))
  {
    var t := AfterFinish(s);
    assert Emitted(t) == Emitted(s);
    forall j | 0 <= j < |t.slots| ensures Disciplined(t, j) && Wired(t, j) {
      assert Disciplined(s, j) && Wired(s, j);
    }
  }

  lemma RestartOrderly(s: Sys)
    requires Structured(s) && Orderly(s) && s.lock == Free
    ensures Orderly(AfterRestart(s))
  {
    var t := AfterRestart(s);
    assert Emitted(t) == Emitted(s);
    forall j | 0 <= j < |t.slots| ensures Disciplined(t, j) && Wired(t, j) {
      assert Disciplined(s, j) && Wired(s, j) && Owned(s, j);
      var x := s.slots[j];
      if x.stage == Tracked {
        SweepCompletesScript(x.kind, x.id, s.entries[x.id].emitted, x.progress);
      }
    }
  }

  /** Steps that leave the sends, the table and the frames as they are. */
  lemma ReactorOrderly(s: Sys, t: Sys)
    requires Orderly(s) && t.slots == s.slots && t.entries == s.entries && t.epoch == s.epoch
    requires Emitted(t) == Emitted(s) && forall id :: InDone(t, id) == InDone(s, id)
    ensures Orderly(t)
  {
    forall j | 0 <= j < |t.slots| ensures Disciplined(t, j) && Wired(t, j) {
      assert Disciplined(s, j) && Wired(s, j);
    }
  }

  lemma StepKeepsOrder(s: Sys, a: Act)
    requires Structured(s) && Orderly(s) && Enabled(s, a)
    ensures Orderly(Step(s, a))
  {
    match a
    case Send(kind, id) => SpawnOrderly(s, kind, id);
    case WriteHandOff(k) =>
      assert Wired(s, k);
      ResolveOrderly(s, k, HandOff(s.slots[k].progress));
    case WriteSettled(k, v) => ResolveOrderly(s, k, Settle(s.slots[k].progress, v));
    case NotifyOne(w) => ReactorOrderly(s, Step(s, a));
    case Register(k) => RegisterOrderly(s, k);
    case Insert(k) => InsertOrderly(s, k);
    case TakePermit => ReactorOrderly(s, Step(s, a));
    case LockForSweep =>
      assert s.log + [] == s.log;
      ReactorOrderly(s, Step(s, a));
    case ReadEntry(id) => ReadOrderly(s, id);
    case FinishSweep => FinishOrderly(s);
    case Restart => RestartOrderly(s);
  }

  // ---------------------------------------------------------------- no lost confirm

  /** Someone will still look at this entry. */
  predicate Attended(s: Sys, id: RequestId) {
    s.permit || s.reactor == Woken || s.epoch in s.notifying || (s.reactor.Sweeping? && id in s.reactor.todo)
  }

  /** An entry that owes an unemitted frame is attended. */
  predicate Safe(s: Sys, id: RequestId)
    requires Linked(s, id)
  {
    Read(s, id).frames != [] && !InDone(s, id) ==> Attended(s, id)
  }

  ghost predicate NoneLost(s: Sys)
    requires Structured(s)
  {
    forall id :: id in s.entries ==> Safe(s, id)
  }

  lemma ResolveLosesNone(s: Sys, k: nat, p: Progress<nat>)
    requires Structured(s) && Orderly(s) && NoneLost(s) && k < |s.slots|
    requires Structured(Resolved(s, k, p))
    ensures NoneLost(Resolved(s, k, p))
  {
    var t := Resolved(s, k, p);
    forall id | id in t.entries ensures Safe(t, id) {
      assert Linked(s, id) && Safe(s, id) && Wired(s, k);
    }
  }

  lemma ReadLosesNone(s: Sys, id: RequestId)
    requires Structured(s) && Orderly(s) && NoneLost(s) && s.reactor.Sweeping? && id in s.reactor.todo
    requires Structured(AfterRead(s, id))
    ensures NoneLost(AfterRead(s, id))
  {
    var t, e := AfterRead(s, id), s.entries[id];
    var x := s.slots[e.slot];
    assert Disciplined(s, e.slot);
    if !Read(s, id).done {
      SweepIsIdempotent(x.kind, id, e.emitted, x.progress);
    }
    forall y | y in t.entries ensures Safe(t, y) {
      assert Safe(s, y);
    }
  }

  lemma FinishLosesNone(s: Sys)
    requires Structured(s) && NoneLost(s) && s.reactor.Sweeping? && s.reactor.todo == {}
    requires Structured(AfterFinish(s))
    ensures NoneLost(AfterFinish(s))
  {
    var t := AfterFinish(s);
    forall id | id in t.entries ensures Safe(t, id) {
      assert Linked(s, id) && Safe(s, id);
    }
  }

  /** Steps that add or rewrite no verdict of an entry. */
  lemma OthersLoseNone(s: Sys, t: Sys)
    requires Structured(s) && Structured(t) && NoneLost(s)
    requires forall id :: id in t.entries ==>
      Attended(t, id) || (id in s.entries && Read(t, id) == Read(s, id) && InDone(t, id) == InDone(s, id)
                          && !Attended(s, id))
    ensures NoneLost(t)
  {
    forall id | id in t.entries ensures Safe(t, id) {
      if id in s.entries {
        assert Safe(s, id);
      }
    }
  }

  lemma StepLosesNone(s: Sys, a: Act)
    requires Structured(s) && Orderly(s) && NoneLost(s) && Enabled(s, a) && Structured(Step(s, a))
    ensures NoneLost(Step(s, a))
  {
    match a
    case WriteHandOff(k) =>
      if s.slots[k].progress.handedOff.None? {
        ResolveLosesNone(s, k, HandOff(s.slots[k].progress));
      }
    case WriteSettled(k, v) => ResolveLosesNone(s, k, Settle(s.slots[k].progress, v));
    case ReadEntry(id) => ReadLosesNone(s, id);
    case FinishSweep => FinishLosesNone(s);
    case Register(k) => RegisterLosesNone(s, k);
    case _ => OthersLoseNone(s, Step(s, a));
  }

  lemma RegisterLosesNone(s: Sys, k: nat)
    requires Structured(s) && NoneLost(s) && Enabled(s, Register(k)) && Structured(AfterRegister(s, k))
    ensures NoneLost(AfterRegister(s, k))
  {
    var t := AfterRegister(s, k);
    forall id | id in t.entries ensures Safe(t, id) {
      assert Linked(s, id) && Safe(s, id);
    }
  }

  // ---------------------------------------------------------------- runs

  ghost predicate Invariant(s: Sys) {
    Structured(s) && Orderly(s) && NoneLost(s)
  }

  lemma StepKeepsInvariant(s: Sys, a: Act)
    requires Invariant(s) && Enabled(s, a)
    ensures Invariant(Step(s, a))
  {
    StepKeepsStructure(s, a);
    StepKeepsOrder(s, a);
    StepLosesNone(s, a);
  }

  function RunFrom(s: Sys, acts: seq<Act>): Option<Sys> {
    if acts == [] then Some(s)
    else
      var t := RunFrom(s, acts[..|acts| - 1]);
      if t.Some? && Enabled(t.value, acts[|acts| - 1]) then Some(Step(t.value, acts[|acts| - 1])) else None
  }

  lemma {:induction false} RunKeepsInvariant(s: Sys, acts: seq<Act>)
    requires Invariant(s) && RunFrom(s, acts).Some?
    ensures Invariant(RunFrom(s, acts).value)
  {
    if acts != [] {
      RunKeepsInvariant(s, acts[..|acts| - 1]);
      StepKeepsInvariant(RunFrom(s, acts[..|acts| - 1]).value, acts[|acts| - 1]);
    }
  }

  /** No lost confirm: in every interleaving, an entry that owes a frame which no sweep has
      collected is waiting for a stored permit, for a resolver or requester between its
      unlock and its notify, or for a reactor that took a permit and has not read it yet. */
  lemma NoLostConfirm(acts: seq<Act>, id: RequestId)
    requires RunFrom(Boot, acts).Some? && Linked(RunFrom(Boot, acts).value, id)
    requires var s := RunFrom(Boot, acts).value; Read(s, id).frames != [] && !InDone(s, id)
    ensures var s := RunFrom(Boot, acts).value;
      || s.permit
      || s.epoch in s.notifying
      || s.reactor == Woken
      || (s.reactor.Sweeping? && id in s.reactor.todo)
  {
    RunKeepsInvariant(Boot, acts);
    var s := RunFrom(Boot, acts).value;
    assert Safe(s, id);
  }

  lemma {:induction false} SaidPrefix(a: seq<Frame>, b: seq<Frame>, k: nat)
    ensures Said(a, k) <= Said(a + b, k)
    decreases |b|
  {
    if b == [] {
      assert a + b == a;
    } else {
      assert (a + b)[..|a + b| - 1] == a + b[..|b| - 1];
      SaidPrefix(a, b[..|b| - 1], k);
    }
  }

  lemma SaidFollowsScript(s: Sys, k: nat)
    requires Orderly(s) && k < |s.slots|
    ensures var x := s.slots[k]; Said(s.log, k) <= Said(Emitted(s), k) <= Script(x.kind, x.id, x.progress)
  {
    var x := s.slots[k];
    assert Disciplined(s, k);
    if s.reactor.Sweeping? {
      SaidPrefix(s.log, s.reactor.out, k);
    }
    if x.stage == Tracked && !InDone(s, x.id) {
      SweepCompletesScript(x.kind, x.id, s.entries[x.id].emitted, x.progress);
    }
  }

  /** Exactly once and in order: in every run, what the client hears of a send is a prefix of
      the script of its verdicts. So there is at most one send or broadcast confirm, an
      acknowledgement confirm comes only after a send confirm of a successful handoff, and
      every status is the slot's verdict. */
  lemma ConfirmsFollowScript(acts: seq<Act>, k: nat)
    requires RunFrom(Boot, acts).Some? && k < |RunFrom(Boot, acts).value.slots|
    ensures var s := RunFrom(Boot, acts).value;
      var x, said := s.slots[k], Said(s.log, k);
      && said <= Script(x.kind, x.id, x.progress)
      && |said| <= (if x.kind == UnicastApsAck then 2 else 1)
      && (|said| >= 1 ==> said[0] == if x.kind == UnicastApsAck then SendConfirm(x.id, x.progress.handedOff.value)
                                     else if x.kind == UnicastNoAck then SendConfirm(x.id, x.progress.delivered.value)
                                     else BroadcastConfirm(x.id, x.progress.delivered.value))
      && (|said| == 2 ==> said == [SendConfirm(x.id, Accepted), ApsAckConfirm(x.id, x.progress.delivered.value)])
  {
    RunKeepsInvariant(Boot, acts);
    SaidFollowsScript(RunFrom(Boot, acts).value, k);
  }

  // ---------------------------------------------------------------- what a run wrote

  /** The sends of a run, in order. */
  function SendsOf(acts: seq<Act>): seq<(ConfirmKind, RequestId)> {
    if acts == [] then []
    else
      var a := acts[|acts| - 1];
      SendsOf(acts[..|acts| - 1]) + if a.Send? then [(a.kind, a.id)] else []
  }

  /** The handoff and the final verdict that a run wrote for a send; each is written once, and
      the final verdict stands in for a handoff that never came. */
  function VerdictsOf(acts: seq<Act>, k: nat): (Option<Verdict>, Option<Verdict>) {
    if acts == [] then (None, None)
    else
      var (h, d) := VerdictsOf(acts[..|acts| - 1], k);
      match acts[|acts| - 1]
      case WriteHandOff(x) => (if x == k && h.None? then Some(Accepted) else h, d)
      case WriteSettled(x, v) => if x != k then (h, d) else (if h.None? then Some(v) else h, Some(v))
      case _ => (h, d)
  }

  ghost predicate SlotTells(s: Sys, acts: seq<Act>, k: nat) {
    var p := VerdictsOf(acts, k);
    if k < |SendsOf(acts)|
    then && k < |s.slots| && s.slots[k].kind == SendsOf(acts)[k].0 && s.slots[k].id == SendsOf(acts)[k].1
         && s.slots[k].progress.handedOff == p.0 && s.slots[k].progress.delivered == p.1
    else k >= |s.slots| && p == (None, None)
  }

  /** No other step touches what a send is or what its verdicts are. */
  lemma OtherStepsKeepVerdicts(s: Sys, a: Act, k: nat)
    requires Enabled(s, a) && !a.Send? && !a.WriteHandOff? && !a.WriteSettled?
    ensures var t := Step(s, a);
      && |t.slots| == |s.slots|
      && (k < |s.slots| ==> && t.slots[k].kind == s.slots[k].kind && t.slots[k].id == s.slots[k].id
                            && t.slots[k].progress.handedOff == s.slots[k].progress.handedOff
                            && t.slots[k].progress.delivered == s.slots[k].progress.delivered
                            && (!a.Register? ==> t.slots[k].progress == s.slots[k].progress))
  {
  }

  lemma {:induction false} SlotsAreSends(acts: seq<Act>)
    requires RunFrom(Boot, acts).Some?
    ensures |RunFrom(Boot, acts).value.slots| == |SendsOf(acts)|
  {
    if acts != [] {
      SlotsAreSends(acts[..|acts| - 1]);
    }
  }

  lemma StepTells(s: Sys, acts: seq<Act>, a: Act, k: nat)
    requires Enabled(s, a) && SlotTells(s, acts, k) && |s.slots| == |SendsOf(acts)|
    ensures SlotTells(Step(s, a), acts + [a], k)
  {
    assert (acts + [a])[..|acts|] == acts;
    if !a.Send? && !a.WriteHandOff? && !a.WriteSettled? {
      OtherStepsKeepVerdicts(s, a, k);
    }
  }

  /** In every run the slots are the sends made, in order, each with the verdicts written for
      it: those are what `ConfirmsFollowScript` speaks of. */
  lemma {:induction false} SlotsTellRun(acts: seq<Act>, k: nat)
    requires RunFrom(Boot, acts).Some?
    ensures SlotTells(RunFrom(Boot, acts).value, acts, k)
  {
    if acts != [] {
      var front, a := acts[..|acts| - 1], acts[|acts| - 1];
      SlotsTellRun(front, k);
      SlotsAreSends(front);
      StepTells(RunFrom(Boot, front).value, front, a, k);
      assert acts == front + [a];
    }
  }

  /** A send can be made at any time, and whatever is enabled happens. */
  lemma RunGoesOn(acts: seq<Act>, a: Act)
    requires RunFrom(Boot, acts).Some? && (a.Send? || Enabled(RunFrom(Boot, acts).value, a))
    ensures RunFrom(Boot, []) == Some(Boot)
    ensures Enabled(RunFrom(Boot, acts).value, a)
    ensures RunFrom(Boot, acts + [a]) == Some(Step(RunFrom(Boot, acts).value, a))
  {
    assert (acts + [a])[..|acts|] == acts;
  }

  /** No one holds a wake of a tracker yet to come. */
  ghost predicate WakesArePast(s: Sys) {
    && (forall w :: w in s.notifying ==> w <= s.epoch)
    && (forall k :: 0 <= k < |s.slots| && s.slots[k].progress.wake.Some? ==> s.slots[k].progress.wake.value <= s.epoch)
  }

  lemma SlotWakeIsPast(s: Sys, a: Act, k: nat)
    requires Enabled(s, a) && WakesArePast(s) && k < |Step(s, a).slots| && Step(s, a).slots[k].progress.wake.Some?
    ensures Step(s, a).slots[k].progress.wake.value <= Step(s, a).epoch
  {
    if !a.Send? && !a.WriteHandOff? && !a.WriteSettled? && !a.Register? {
      OtherStepsKeepVerdicts(s, a, k);
      assert s.epoch <= Step(s, a).epoch;
    }
  }

  lemma NotifiedWakeIsPast(s: Sys, a: Act, w: nat)
    requires Enabled(s, a) && WakesArePast(s) && w in Step(s, a).notifying
    ensures w <= Step(s, a).epoch
  {
  }

  lemma StepKeepsWakesPast(s: Sys, a: Act)
    requires Enabled(s, a) && WakesArePast(s)
    ensures WakesArePast(Step(s, a))
  {
    var t := Step(s, a);
    forall k | 0 <= k < |t.slots| && t.slots[k].progress.wake.Some? ensures t.slots[k].progress.wake.value <= t.epoch {
      SlotWakeIsPast(s, a, k);
    }
    forall w | w in t.notifying ensures w <= t.epoch {
      NotifiedWakeIsPast(s, a, w);
    }
  }

  lemma {:induction false} RunKeepsWakesPast(acts: seq<Act>)
    requires RunFrom(Boot, acts).Some?
    ensures WakesArePast(RunFrom(Boot, acts).value)
  {
    if acts != [] {
      RunKeepsWakesPast(acts[..|acts| - 1]);
      StepKeepsWakesPast(RunFrom(Boot, acts[..|acts| - 1]).value, acts[|acts| - 1]);
    }
  }

  /** A restart leaves the new tracker as a new system starts: it tracks nothing, it is at rest,
      and no wake given out before is its own, so nothing of the past can wake it. */
  lemma RestartIsFresh(acts: seq<Act>)
    requires RunFrom(Boot, acts).Some? && Enabled(RunFrom(Boot, acts).value, Restart)
    ensures Boot.entries == map[] && !Boot.permit && Boot.reactor == Waiting && Boot.notifying == multiset{}
    ensures var t := Step(RunFrom(Boot, acts).value, Restart);
      && t.entries == map[] && !t.permit && t.reactor == Waiting && t.lock == Free
      && t.epoch !in t.notifying
      && forall k :: 0 <= k < |t.slots| ==> t.slots[k].progress.wake != Some(t.epoch)
  {
    RunKeepsWakesPast(acts);
  }

  // ---------------------------------------------------------------- nothing is left behind

  predicate Quiescent(s: Sys) {
    s.reactor == Waiting && s.lock == Free && !s.permit && s.epoch !in s.notifying
  }

  /** At rest every client of a tracked send has heard all its verdicts call for, and every
      send whose script is complete has left the table. */
  lemma QuietMeansConfirmed(s: Sys, k: nat)
    requires Invariant(s) && Quiescent(s) && k < |s.slots| && s.slots[k].stage == Tracked
    ensures var x := s.slots[k];
      Said(s.log, k) == Script(x.kind, x.id, x.progress) && !Complete(x.kind, x.progress)
  {
    var x := s.slots[k];
    assert Listed(s, k) && Disciplined(s, k) && Wired(s, k) && Safe(s, x.id);
    SweepCompletesScript(x.kind, x.id, s.entries[x.id].emitted, x.progress);
    assert Read(s, x.id).frames == [];
  }

  /** Steps that need nothing from outside: no new send, no verdict, no restart. */
  predicate Internal(a: Act) {
    a.NotifyOne? || a.Insert? || a.TakePermit? || a.LockForSweep? || a.ReadEntry? || a.FinishSweep?
  }

  /** While the system is not at rest it can go on by itself. */
  lemma NeverStuck(s: Sys) returns (a: Act)
    requires Structured(s) && !Quiescent(s)
    ensures Internal(a) && Enabled(s, a)
  {
    if s.lock.ByRequester? {
      a := Insert(s.lock.slot);
    } else if s.reactor.Sweeping? {
      if s.reactor.todo == {} {
        a := FinishSweep;
      } else {
        var id := LeastExists(s.reactor.todo);
        a := ReadEntry(id);
      }
    } else if s.epoch in s.notifying {
      a := NotifyOne(s.epoch);
    } else if s.reactor == Woken {
      a := LockForSweep;
    } else {
      a := TakePermit;
    }
  }

  function Work(s: Sys): nat {
    |s.notifying| + if s.lock.ByRequester? then 2 else 0
  }

  /** The most entries a sweep can find before someone outside acts. */
  function Room(s: Sys): nat {
    |s.entries| + if s.lock.ByRequester? then 1 else 0
  }

  /** What the sweep under way, or the one a taken permit starts, still costs. */
  function SweepCost(s: Sys): nat {
    match s.reactor
    case Waiting => 0
    case Woken => Room(s) + 2
    case Sweeping(todo, _, _) => |todo| + 1
  }

  /** A bound on how many internal steps can follow: each notification may store a permit,
      and each permit may cost a sweep of all entries. */
  function Bound(s: Sys): nat {
    Cost(Work(s), Room(s), s.permit, SweepCost(s))
  }

  function Cost(work: nat, room: nat, permit: bool, sweep: nat): nat {
    work * (room + 4) + (if permit then room + 3 else 0) + sweep
  }

  lemma SweepEndCosts(work: nat, room: nat, left: nat, permit: bool, sweep: nat)
    requires left <= room && sweep > 0
    ensures Cost(work, left, permit, 0) < Cost(work, room, permit, sweep)
  {
    ProductRises(work, left + 4, room + 4);
  }

  lemma ProductFalls(w: nat, v: nat, c: nat, d: nat)
    requires v < w && d <= c
    ensures v * d + c <= w * c
  {
    assert w * c == v * c + (w - v) * c;
    ProductRises(v, d, c);
    ProductRises(c, 1, w - v);
  }

  lemma ProductRises(a: nat, b: nat, c: nat)
    requires b <= c
    ensures a * b <= a * c
  {
  }

  lemma NotifyCosts(s: Sys, wake: nat)
    requires wake in s.notifying
    ensures Bound(AfterNotify(s, wake)) < Bound(s)
  {
    var t := AfterNotify(s, wake);
    assert |t.notifying| == |s.notifying| - 1;
    ProductFalls(Work(s), Work(t), Room(s) + 4, Room(t) + 4);
  }

  lemma EntriesGrow(m: map<RequestId, Entry>, id: RequestId, e: Entry)
    ensures |m[id := e]| <= |m| + 1
  {
    assert m[id := e].Keys == m.Keys + {id};
  }

  lemma InsertCosts(s: Sys, k: nat)
    requires Structured(s) && s.lock == ByRequester(k)
    ensures Bound(AfterInsert(s, k)) < Bound(s)
  {
    var t := AfterInsert(s, k);
    assert |t.notifying| == |s.notifying| + 1;
    EntriesGrow(s.entries, s.slots[k].id, Entry(k, false));
    ProductFalls(Work(s), Work(t), Room(s) + 4, Room(t) + 4);
  }

  lemma FinishCosts(s: Sys)
    requires s.lock == ByReactor && s.reactor.Sweeping?
    ensures Bound(AfterFinish(s)) < Bound(s)
  {
    var t := AfterFinish(s);
    EntriesShrink(s.entries, s.reactor.done);
    SweepEndCosts(Work(s), Room(s), Room(t), s.permit, SweepCost(s));
  }

  lemma EntriesShrink(m: map<RequestId, Entry>, gone: set<RequestId>)
    ensures |m - gone| <= |m|
  {
    var n := m - gone;
    assert n.Keys <= m.Keys;
    assert m.Keys == n.Keys + (m.Keys - n.Keys);
  }

  lemma TakeCosts(s: Sys)
    requires s.reactor == Waiting && s.permit
    ensures Bound(s.(permit := false, reactor := Woken)) < Bound(s)
  {
  }

  lemma LockCosts(s: Sys)
    requires s.reactor == Woken && s.lock == Free
    ensures Bound(AfterLock(s)) < Bound(s)
  {
    assert |s.entries.Keys| == |s.entries|;
  }

  lemma ReadCosts(s: Sys, id: RequestId)
    requires Linked(s, id) && s.reactor.Sweeping? && id in s.reactor.todo
    ensures Bound(AfterRead(s, id)) < Bound(s)
  {
    var t := AfterRead(s, id);
    assert t.entries.Keys == s.entries.Keys;
    assert |t.entries| == |s.entries| by {
      assert |t.entries.Keys| == |t.entries| && |s.entries.Keys| == |s.entries|;
    }
    assert |t.reactor.todo| == |s.reactor.todo| - 1;
  }

  /** Each internal step uses up some of the bound. */
  lemma InternalStepsCost(s: Sys, a: Act)
    requires Structured(s) && Internal(a) && Enabled(s, a)
    ensures Bound(Step(s, a)) < Bound(s)
  {
    match a
    case NotifyOne(w) => NotifyCosts(s, w);
    case Insert(k) => InsertCosts(s, k);
    case FinishSweep => FinishCosts(s);
    case TakePermit => TakeCosts(s);
    case LockForSweep => LockCosts(s);
    case ReadEntry(id) => ReadCosts(s, id);
  }

  predicate AllInternal(acts: seq<Act>) {
    forall i :: 0 <= i < |acts| ==> Internal(acts[i])
  }

  /** Every schedule of internal steps ends, within the bound of the state it starts from. */
  lemma {:induction false} SchedulesEnd(s: Sys, acts: seq<Act>)
    requires Invariant(s) && AllInternal(acts) && RunFrom(s, acts).Some?
    ensures |acts| + Bound(RunFrom(s, acts).value) <= Bound(s)
  {
    if acts != [] {
      var front := acts[..|acts| - 1];
      SchedulesEnd(s, front);
      RunKeepsInvariant(s, front);
      InternalStepsCost(RunFrom(s, front).value, acts[|acts| - 1]);
    }
  }

  /** Another send under the same id is about to take a send's entry: its requester holds the
      lock. */
  predicate Displaced(s: Sys, k: nat)
    requires k < |s.slots|
  {
    && s.lock.ByRequester? && s.lock.slot < |s.slots| && s.lock.slot != k
    && s.slots[k].stage == Tracked && s.slots[s.lock.slot].id == s.slots[k].id
  }

  lemma InsertLosesIff(s: Sys, j: nat, k: nat)
    requires Structured(s) && s.lock == ByRequester(j) && k < |s.slots| && s.slots[k].stage != Lost
    ensures AfterInsert(s, j).slots[k].stage == Lost <==> Displaced(s, k)
  {
    assert Owned(s, k);
  }

  /** A send is lost exactly to a restart, or to an insert that takes its entry. */
  lemma LostIff(s: Sys, a: Act, k: nat)
    requires Structured(s) && Enabled(s, a) && k < |s.slots| && s.slots[k].stage != Lost
    ensures |Step(s, a).slots| >= |s.slots|
    ensures Step(s, a).slots[k].stage == Lost
            <==> (a.Restart? && s.slots[k].stage == Tracked) || (a.Insert? && Displaced(s, k))
  {
    if a.Insert? {
      InsertLosesIff(s, a.slot, k);
    }
  }

  /** The verdicts of a send and its place with the tracker survive internal steps, unless it
      is displaced. */
  predicate Carried(s: Sys, t: Sys, k: nat)
    requires k < |s.slots|
  {
    && |t.slots| == |s.slots|
    && t.slots[k].(stage := Untracked) == s.slots[k].(stage := Untracked)
    && (t.slots[k].stage.Registered? || t.slots[k].stage.Tracked? || t.slots[k].stage.Retired?)
    && !Displaced(t, k)
  }

  lemma InternalStepCarries(s: Sys, a: Act, k: nat)
    requires Structured(s) && Internal(a) && Enabled(s, a) && k < |s.slots| && Carried(s, s, k)
    ensures Carried(s, Step(s, a), k)
  {
    LostIff(s, a, k);
  }

  lemma {:induction false} InternalRunCarries(s: Sys, acts: seq<Act>, k: nat)
    requires Invariant(s) && AllInternal(acts) && RunFrom(s, acts).Some? && k < |s.slots| && Carried(s, s, k)
    ensures Carried(s, RunFrom(s, acts).value, k)
  {
    if acts != [] {
      InternalRunCarries(s, acts[..|acts| - 1], k);
      RunKeepsInvariant(s, acts[..|acts| - 1]);
      InternalStepCarries(RunFrom(s, acts[..|acts| - 1]).value, acts[|acts| - 1], k);
    }
  }

  /** Every settled send is confirmed: from any reachable state, whenever the system comes to
      rest by itself, a send that was with the tracker and whose script is complete has been
      confirmed in full, exactly once, and has left the table, unless another send under its
      id was already taking its entry. */
  lemma RestConfirmsSettled(s: Sys, acts: seq<Act>, k: nat)
    requires Invariant(s) && AllInternal(acts) && RunFrom(s, acts).Some? && Quiescent(RunFrom(s, acts).value)
    requires k < |s.slots| && (s.slots[k].stage == Registered || s.slots[k].stage == Tracked)
    requires Complete(s.slots[k].kind, s.slots[k].progress) && !Displaced(s, k)
    ensures var t, x := RunFrom(s, acts).value, s.slots[k];
      && |t.slots| == |s.slots| && t.slots[k].stage == Retired
      && Said(t.log, k) == Script(x.kind, x.id, x.progress)
  {
    RunKeepsInvariant(s, acts);
    InternalRunCarries(s, acts, k);
    var t := RunFrom(s, acts).value;
    assert Owned(t, k) && Disciplined(t, k);
    if t.slots[k].stage == Tracked {
      QuietMeansConfirmed(t, k);
    }
  }

  /** One whose entry is being taken is lost whatever happens next. */
  predicate Doomed(s: Sys, t: Sys, k: nat)
    requires k < |s.slots|
  {
    && |t.slots| == |s.slots|
    && (t.slots[k].stage == Lost || Displaced(t, k))
  }

  lemma InternalStepDooms(s: Sys, a: Act, k: nat)
    requires Structured(s) && Internal(a) && Enabled(s, a) && k < |s.slots| && Doomed(s, s, k)
    ensures Doomed(s, Step(s, a), k)
  {
    assert Owned(s, k);
  }

  lemma {:induction false} RestLosesDisplaced(s: Sys, acts: seq<Act>, k: nat)
    requires Invariant(s) && AllInternal(acts) && RunFrom(s, acts).Some? && k < |s.slots| && Displaced(s, k)
    ensures Doomed(s, RunFrom(s, acts).value, k)
    ensures Quiescent(RunFrom(s, acts).value) ==> RunFrom(s, acts).value.slots[k].stage == Lost
  {
    if acts != [] {
      var front := acts[..|acts| - 1];
      RestLosesDisplaced(s, front, k);
      RunKeepsInvariant(s, front);
      InternalStepDooms(RunFrom(s, front).value, acts[|acts| - 1], k);
    }
  }

  /** And it always can come to rest. */
  lemma {:induction false} ComesToRest(s: Sys) returns (acts: seq<Act>)
    requires Invariant(s)
    ensures AllInternal(acts) && RunFrom(s, acts).Some? && Quiescent(RunFrom(s, acts).value)
    decreases Bound(s)
  {
    if Quiescent(s) {
      acts := [];
    } else {
      var a := NeverStuck(s);
      InternalStepsCost(s, a);
      StepKeepsInvariant(s, a);
      var rest := ComesToRest(Step(s, a));
      acts := [a] + rest;
      RunUnfolds(s, a, rest);
    }
  }

  lemma RunAppends(s: Sys, acts: seq<Act>, b: Act)
    ensures var t := RunFrom(s, acts);
      RunFrom(s, acts + [b]) == if t.Some? && Enabled(t.value, b) then Some(Step(t.value, b)) else None
  {
    assert (acts + [b])[..|acts|] == acts;
  }

  lemma {:induction false} RunUnfolds(s: Sys, a: Act, rest: seq<Act>)
    requires Enabled(s, a)
    ensures RunFrom(s, [a] + rest) == RunFrom(Step(s, a), rest)
    decreases |rest|
  {
    if rest == [] {
      RunAppends(s, [], a);
      assert [a] + rest == [] + [a];
    } else {
      var front, b := rest[..|rest| - 1], rest[|rest| - 1];
      RunUnfolds(s, a, front);
      RunAppends(s, [a] + front, b);
      RunAppends(Step(s, a), front, b);
      assert [a] + rest == [a] + front + [b];
      assert rest == front + [b];
    }
  }
}
