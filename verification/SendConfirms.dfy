/** The two verdicts of a send, and the confirm frames that a tracked send owes its client. */
module SendConfirms {
  import opened Prelude

  type RequestId = u16

  datatype Verdict = Accepted | Failed(error: nat)

  /** Two verdicts, each written once, and the wake to notify when one is. */
  datatype Progress<Wake> = Progress(handedOff: Option<Verdict>, delivered: Option<Verdict>, wake: Option<Wake>)

  function HandOff<W>(p: Progress<W>): Progress<W> {
    if p.handedOff.Some? then p else p.(handedOff := Some(Accepted))
  }

  /** The final verdict stands in for a handoff that never came. */
  function Settle<W>(p: Progress<W>, v: Verdict): Progress<W> {
    p.(handedOff := if p.handedOff.Some? then p.handedOff else Some(v), delivered := Some(v))
  }

  datatype ConfirmKind = UnicastNoAck | UnicastApsAck | Broadcast

  datatype Confirm =
    | SendConfirm(id: RequestId, status: Verdict)
    | ApsAckConfirm(id: RequestId, status: Verdict)
    | BroadcastConfirm(id: RequestId, status: Verdict)

  /** Everything the verdicts so far call for, in order. A failed handoff is terminal: no
      acknowledgement follows it. */
  function Script<W>(kind: ConfirmKind, id: RequestId, p: Progress<W>): seq<Confirm> {
    match kind
    case UnicastNoAck => if p.delivered.Some? then [SendConfirm(id, p.delivered.value)] else []
    case Broadcast => if p.delivered.Some? then [BroadcastConfirm(id, p.delivered.value)] else []
    case UnicastApsAck =>
      if p.handedOff.None? then []
      else if p.handedOff.value.Failed? || p.delivered.None? then [SendConfirm(id, p.handedOff.value)]
      else [SendConfirm(id, p.handedOff.value), ApsAckConfirm(id, p.delivered.value)]
  }

  /** No further frame will be called for. */
  predicate Complete<W>(kind: ConfirmKind, p: Progress<W>) {
    p.delivered.Some? || (kind == UnicastApsAck && p.handedOff.Some? && p.handedOff.value.Failed?)
  }

  /** What one pass of the sweep makes of an entry. */
  datatype Swept = Swept(frames: seq<Confirm>, emitted: bool, done: bool)

  function SweepEntry<W>(kind: ConfirmKind, id: RequestId, emitted: bool, p: Progress<W>): Swept {
    match kind
    case UnicastNoAck =>
      if p.delivered.Some? then Swept([SendConfirm(id, p.delivered.value)], emitted, true)
      else Swept([], emitted, false)
    case Broadcast =>
      if p.delivered.Some? then Swept([BroadcastConfirm(id, p.delivered.value)], emitted, true)
      else Swept([], emitted, false)
    case UnicastApsAck =>
      var now := !emitted && p.handedOff.Some?;
      var first := if now then [SendConfirm(id, p.handedOff.value)] else [];
      if now && p.handedOff.value.Failed? then Swept(first, true, true)
      else if (emitted || now) && p.delivered.Some? then
        Swept(first + [ApsAckConfirm(id, p.delivered.value)], true, true)
      else Swept(first, emitted || now, false)
  }

  /** A verdict once written stays. */
  ghost predicate Grows<W(!new)>(p: Progress<W>, q: Progress<W>) {
    (p.handedOff.Some? ==> q.handedOff == p.handedOff) && (p.delivered.Some? ==> q.delivered == p.delivered)
  }

  /** A send with a final verdict has a handoff verdict too. */
  predicate Backfilled<W>(p: Progress<W>) {
    p.delivered.Some? ==> p.handedOff.Some?
  }

  /** Whether the first of two frames went out: only a successful handoff leaves an entry in
      that state. */
  predicate Halfway<W>(kind: ConfirmKind, emitted: bool, p: Progress<W>) {
    emitted ==> kind == UnicastApsAck && p.handedOff == Some(Accepted)
  }

  /** What the client was already told of an entry. */
  function Told(kind: ConfirmKind, id: RequestId, emitted: bool): seq<Confirm> {
    if emitted then [SendConfirm(id, Accepted)] else []
  }

  /** A pass completes the script for the verdicts it reads, whatever was told before, and
      is done with an entry exactly when nothing more will be called for. */
  lemma SweepCompletesScript<W>(kind: ConfirmKind, id: RequestId, emitted: bool, p: Progress<W>)
    requires Halfway(kind, emitted, p)
    ensures var r := SweepEntry(kind, id, emitted, p);
      && Script(kind, id, p) == Told(kind, id, emitted) + r.frames
      && (Backfilled(p) ==> (r.done <==> Complete(kind, p)))
      && (!r.done ==> Halfway(kind, r.emitted, p) && Script(kind, id, p) == Told(kind, id, r.emitted))
  {
    assert [] + SweepEntry(kind, id, emitted, p).frames == SweepEntry(kind, id, emitted, p).frames;
  }

  /** A second pass over the same verdicts has nothing to add. */
  lemma SweepIsIdempotent<W>(kind: ConfirmKind, id: RequestId, emitted: bool, p: Progress<W>)
    requires Halfway(kind, emitted, p) && !SweepEntry(kind, id, emitted, p).done
    ensures var r := SweepEntry(kind, id, emitted, p);
      SweepEntry(kind, id, r.emitted, p) == Swept([], r.emitted, false)
  {
  }

  /** Later verdicts only extend the script, and leave a complete one alone. */
  lemma ScriptGrows<W(!new)>(kind: ConfirmKind, id: RequestId, p: Progress<W>, q: Progress<W>)
    requires Grows(p, q) && Backfilled(p)
    ensures Script(kind, id, p) <= Script(kind, id, q)
    ensures Complete(kind, p) ==> Complete(kind, q) && Script(kind, id, q) == Script(kind, id, p)
  {
  }

  lemma {:induction false} LeastExists(s: set<RequestId>) returns (least: RequestId)
    requires s != {}
    ensures least in s && forall x :: x in s ==> least <= x
  {
    var y :| y in s;
    assert s == (s - {y}) + {y};
    if s - {y} == {} {
      least := y;
    } else {
      least := LeastExists(s - {y});
      if y < least {
        least := y;
      }
    }
  }
}
