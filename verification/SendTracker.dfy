/** The slot that a send's verdicts are written into, and the tracker that turns verdicts into
    confirm frames. */
module SendTracking {
  import opened Prelude
  import opened SendConfirms

  /** A wake that stores one permit; further notifications coalesce. */
  class Notify {
    var permit: bool

    constructor ()
      ensures !permit
    {
      permit := false;
    }

    method NotifyOne()
      modifies this
      ensures permit
    {
      permit := true;
    }
  }

  class SendSlot {
    var handedOff: Option<Verdict>
    var delivered: Option<Verdict>
    var completionWake: Option<Notify>
    const handedOffWake: Notify
    const deliveredWake: Notify

    function Value(): Progress<Notify>
      reads this
    {
      Progress(handedOff, delivered, completionWake)
    }

    /** The wakes that a verdict notifies. */
    function Wakes(): set<Notify>
      reads this
    {
      {handedOffWake, deliveredWake} + if completionWake.Some? then {completionWake.value} else {}
    }

    constructor ()
      ensures Value() == Progress(None, None, None) && fresh(handedOffWake) && fresh(deliveredWake)
    {
      handedOff, delivered, completionWake := None, None, None;
      handedOffWake := new Notify();
      deliveredWake := new Notify();
    }

    /** A handoff that was already decided changes nothing and wakes no one. */
    method HandedOff()
      modifies this, Wakes()
      ensures Value() == HandOff(old(Value()))
      ensures old(handedOff).None? ==> handedOffWake.permit && (completionWake.Some? ==> completionWake.value.permit)
      ensures old(handedOff).Some? ==> forall w :: w in Wakes() ==> w.permit == old(w.permit)
    {
      if handedOff.Some? {
        return;
      }
      handedOff := Some(Accepted);
      handedOffWake.NotifyOne();
      if completionWake.Some? {
        completionWake.value.NotifyOne();
      }
    }

    method Settled(v: Verdict)
      modifies this, Wakes()
      ensures Value() == Settle(old(Value()), v)
      ensures forall w :: w in Wakes() ==> w.permit
    {
      if handedOff.None? {
        handedOff := Some(v);
      }
      delivered := Some(v);
      handedOffWake.NotifyOne();
      deliveredWake.NotifyOne();
      if completionWake.Some? {
        completionWake.value.NotifyOne();
      }
    }

    method SetCompletionWake(wake: Notify)
      modifies this`completionWake
      ensures Value() == old(Value()).(wake := Some(wake))
    {
      completionWake := Some(wake);
    }
  }

  datatype TrackedSend = TrackedSend(slot: SendSlot, kind: ConfirmKind, emitted: bool)

  type Entries = map<RequestId, TrackedSend>

  /** What a pass makes of every entry, given the verdicts the slots hold. */
  ghost function Passes(m: Entries): map<RequestId, Swept>
    reads set id | id in m :: m[id].slot
  {
    map id | id in m :: SweepEntry(m[id].kind, id, m[id].emitted, m[id].slot.Value())
  }

  /** The frames of a pass over these ids, in order. */
  function Frames(passes: map<RequestId, Swept>, ids: seq<RequestId>): seq<Confirm>
    requires forall id :: id in ids ==> id in passes
  {
    if ids == [] then [] else Frames(passes, ids[..|ids| - 1]) + passes[ids[|ids| - 1]].frames
  }

  /** Of these ids, the entries that a pass leaves: those not done, with their flags updated. */
  function Left(m: Entries, passes: map<RequestId, Swept>, ids: set<RequestId>): Entries
    requires ids <= m.Keys && m.Keys == passes.Keys
  {
    map id | id in ids && !passes[id].done :: m[id].(emitted := passes[id].emitted)
  }

  lemma FramesGrow(passes: map<RequestId, Swept>, ids: seq<RequestId>, i: nat)
    requires i < |ids| && forall id :: id in ids ==> id in passes
    ensures Frames(passes, ids[..i + 1]) == Frames(passes, ids[..i]) + passes[ids[i]].frames
  {
    assert ids[..i + 1][..i] == ids[..i];
  }

  lemma LeftGrow(m: Entries, passes: map<RequestId, Swept>, ids: set<RequestId>, id: RequestId)
    requires ids <= m.Keys && m.Keys == passes.Keys && id in m
    ensures Left(m, passes, ids + {id})
         == if passes[id].done then Left(m, passes, ids) - {id}
            else Left(m, passes, ids)[id := m[id].(emitted := passes[id].emitted)]
  {
  }

  /** The order in which the flat map iterates. */
  method InOrder(s: set<RequestId>) returns (ids: seq<RequestId>)
    ensures Increasing(ids) && (forall x :: x in ids <==> x in s)
  {
    ids := [];
    var rest := s;
    while rest != {}
      invariant Increasing(ids) && rest <= s && (forall x :: x in ids <==> x in s && x !in rest)
      invariant forall x, y :: x in ids && y in rest ==> x < y
      decreases |rest|
    {
      ghost var _ := LeastExists(rest);
      var least :| least in rest && forall x :: x in rest ==> least <= x;
      assert forall i :: 0 <= i < |ids| ==> ids[i] in ids;
      assert forall x :: x in ids + [least] <==> x in ids || x == least;
      ids, rest := ids + [least], rest - {least};
    }
  }

  class SendTracker {
    var entries: Entries
    const wake: Notify

    constructor (wake: Notify)
      ensures entries == map[] && this.wake == wake
    {
      this.wake := wake;
      entries := map[];
    }

    method Insert(id: RequestId, slot: SendSlot, kind: ConfirmKind)
      modifies this`entries, slot`completionWake
      ensures entries == old(entries)[id := TrackedSend(slot, kind, false)]
      ensures slot.Value() == old(slot.Value()).(wake := Some(wake))
    {
      slot.SetCompletionWake(wake);
      entries := entries[id := TrackedSend(slot, kind, false)];
    }

    /** One reactor pass: the frames now owed, in the order of the ids, and a table without
        the entries that owe nothing more. */
    method Sweep() returns (out: seq<Confirm>, ghost ids: seq<RequestId>)
      modifies this`entries
      ensures Increasing(ids) && (forall id :: id in ids <==> id in old(entries))
      ensures out == Frames(old(Passes(entries)), ids)
      ensures entries == Left(old(entries), old(Passes(entries)), old(entries).Keys)
    {
      var table;
      out, table, ids := SweepTable(entries);
      entries := table;
    }
  }

  /** The body of the loop: which frames an entry owes now. */
  method SweepOne(id: RequestId, entry: TrackedSend) returns (r: Swept)
    ensures r == SweepEntry(entry.kind, id, entry.emitted, entry.slot.Value())
  {
    var out, emitted := [], entry.emitted;
    match entry.kind {
      case UnicastNoAck =>
        if entry.slot.delivered.Some? {
          return Swept([SendConfirm(id, entry.slot.delivered.value)], emitted, true);
        }
      case Broadcast =>
        if entry.slot.delivered.Some? {
          return Swept([BroadcastConfirm(id, entry.slot.delivered.value)], emitted, true);
        }
      case UnicastApsAck =>
        if !emitted && entry.slot.handedOff.Some? {
          out := [SendConfirm(id, entry.slot.handedOff.value)];
          emitted := true;
          if entry.slot.handedOff.value.Failed? {
            return Swept(out, emitted, true);
          }
        }
        if emitted && entry.slot.delivered.Some? {
          return Swept(out + [ApsAckConfirm(id, entry.slot.delivered.value)], emitted, true);
        }
    }
    r := Swept(out, emitted, false);
  }

  method SweepTable(entries: Entries) returns (out: seq<Confirm>, table: Entries, ghost ids: seq<RequestId>)
    ensures Increasing(ids) && (forall id :: id in ids <==> id in entries)
    ensures out == Frames(Passes(entries), ids)
    ensures table == Left(entries, Passes(entries), entries.Keys)
  {
    var order := InOrder(entries.Keys);
    ids := order;
    out, table := SweepInOrder(entries, order, Passes(entries));
  }

  ghost predicate Agrees(m: Entries, passes: map<RequestId, Swept>, id: RequestId)
    requires id in m && id in passes
    reads m[id].slot
  {
    passes[id] == SweepEntry(m[id].kind, id, m[id].emitted, m[id].slot.Value())
  }

  method SweepInOrder(entries: Entries, order: seq<RequestId>, ghost passes: map<RequestId, Swept>)
    returns (out: seq<Confirm>, table: Entries)
    requires entries.Keys == passes.Keys && (forall id :: id in order <==> id in entries)
    requires forall id :: id in entries ==> Agrees(entries, passes, id)
    ensures out == Frames(passes, order)
    ensures table == Left(entries, passes, entries.Keys)
  {
    ghost var seen: set<RequestId> := {};
    out, table := [], map[];
    for i := 0 to |order|
      invariant out == Frames(passes, order[..i])
      invariant seen <= entries.Keys && (forall k :: 0 <= k < i ==> order[k] in seen)
      invariant table == Left(entries, passes, seen)
    {
      var id := order[i];
      assert id in order;
      assert Agrees(entries, passes, id);
      FramesGrow(passes, order, i);
      LeftGrow(entries, passes, seen, id);
      var r := SweepOne(id, entries[id]);
      out := out + r.frames;
      if r.done {
        table := table - {id};
      } else {
        table := table[id := entries[id].(emitted := r.emitted)];
      }
      seen := seen + {id};
    }
    assert order[..|order|] == order;
    assert seen == entries.Keys;
  }
}
