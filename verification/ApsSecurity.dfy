/** The APS security layer: per-device link keys and replay counters, and which key secures a
    frame. Key derivation, hashing and the cipher are parameters; nothing is assumed of them. */
module ApsSecurityLayer {
  import opened Prelude

  type Eui64 = nat
  type Key = nat
  type Hash = nat
  type Plain = nat

  const MAX_COUNTER: nat := 0xFFFF_FFFF

  datatype Attributes = Provisional | Unverified | Verified

  datatype LinkKey = LinkKey(key: Key, attributes: Attributes)

  /** What is kept per peer: the negotiated key, a key issued but not yet verified, and one
      past the last counter accepted. */
  datatype Device = Device(key: Option<LinkKey>, pending: Option<Key>, counter: Option<u32>)

  const Blank := Device(None, None, None)

  datatype State = State(devices: map<Eui64, Device>, outgoing: u32)

  datatype KeyId = NetworkKey | DataKey | KeyTransportKey | KeyLoadKey

  /** Which key an inbound frame was secured with. */
  datatype Applied = Network | Pair | Global

  /** What the layer is configured with: the well-known key, an optional seed that issues
      keys, and the key derivations. */
  datatype Config = Config(global: Key, seed: Option<Eui64 -> Key>, hash: Key -> Hash,
                           transport: Key -> Key, load: Key -> Key)

  /** An inbound secured frame; `open` is the cipher. */
  datatype Inbound = Inbound(source: Eui64, keyId: KeyId, counter: u32, open: Key -> Option<Plain>, network: Key)

  /** What an outbound frame is secured for, and how. */
  datatype Sealing =
    | ForData(destination: Eui64)
    | ForCommand(destination: Eui64, keyId: KeyId)
    | WithLinkKey(linkKey: Key, keyId: KeyId)
    | WithApplied(source: Eui64, applied: Applied, keyId: KeyId)

  // ---------------------------------------------------------------- queries

  function At(s: State, e: Eui64): Device {
    if e in s.devices then s.devices[e] else Blank
  }

  function Put(s: State, e: Eui64, d: Device): State {
    s.(devices := s.devices[e := d])
  }

  function UnkeyedLinkKey(c: Config, e: Eui64): Key {
    if c.seed.Some? then c.seed.value(e) else c.global
  }

  function DeviceLinkKey(c: Config, s: State, e: Eui64): Key {
    if At(s, e).key.Some? then At(s, e).key.value.key else UnkeyedLinkKey(c, e)
  }

  /** The key of a device that joins for the first time. */
  function JoinLinkKey(c: Config, s: State, e: Eui64): Key {
    if At(s, e).key.Some? then At(s, e).key.value.key else c.global
  }

  function DataLinkKey(c: Config, s: State, e: Eui64): Option<Key> {
    match At(s, e).key
    case Some(entry) => if entry.attributes == Unverified then None else Some(entry.key)
    case None => Some(UnkeyedLinkKey(c, e))
  }

  function SelectKey(c: Config, link: Key, id: KeyId): Option<Key> {
    match id
    case KeyTransportKey => Some(c.transport(link))
    case KeyLoadKey => Some(c.load(link))
    case DataKey => Some(link)
    case NetworkKey => None
  }

  // ---------------------------------------------------------------- operations

  function BeginJoin(s: State, e: Eui64): (State, Option<Key>) {
    if e !in s.devices then (s, None)
    else
      var d := s.devices[e].(pending := None);
      match d.key
      case None => (Put(s, e, d), None)
      case Some(k) =>
        if k.attributes == Provisional then (Put(s, e, d), Some(k.key))
        else if d.counter.None? then (s.(devices := s.devices - {e}), None)
        else (Put(s, e, d.(key := None)), None)
  }

  function IssuedKey(c: Config, e: Eui64, random: Key): Key {
    if c.seed.Some? then c.seed.value(e) else random
  }

  function IssueKey(c: Config, s: State, e: Eui64, random: Key): State {
    Put(s, e, At(s, e).(pending := Some(IssuedKey(c, e, random))))
  }

  /** `None` when no key is on record. */
  function VerifyKey(c: Config, s: State, e: Eui64, hash: Hash): (State, Option<bool>) {
    if e !in s.devices then (s, None)
    else
      var d := s.devices[e];
      match d.pending
      case Some(k) =>
        if c.hash(k) == hash then (Put(s, e, d.(key := Some(LinkKey(k, Verified)), pending := None)), Some(true))
        else (s, Some(false))
      case None =>
        match d.key
        case None => (s, None)
        case Some(k) =>
          if c.hash(k.key) == hash then (Put(s, e, d.(key := Some(LinkKey(k.key, Verified)))), Some(true))
          else (s, Some(false))
  }

  /** The key to seal a frame with; `NoSuchKey` is the source's failed `expect`. */
  datatype Choice = Use(key: Key) | MayNot | NoSuchKey

  function SealingKey(c: Config, s: State, f: Sealing): Choice {
    var link := match f
      case ForData(e) => DataLinkKey(c, s, e)
      case ForCommand(e, _) => Some(DeviceLinkKey(c, s, e))
      case WithLinkKey(k, _) => Some(k)
      case WithApplied(e, a, _) =>
        if a == Network then None else Some(if a == Pair then DeviceLinkKey(c, s, e) else c.global);
    var id := if f.ForData? then DataKey else f.keyId;
    if link.None? then MayNot
    else if SelectKey(c, link.value, id).None? then NoSuchKey
    else Use(SelectKey(c, link.value, id).value)
  }

  /** `Panic` is the source's failed `expect` or `unwrap`. */
  datatype Sealed = Sent(key: Key, counter: u32) | Refused | Panic

  function Seal(c: Config, s: State, f: Sealing): (State, Sealed) {
    match SealingKey(c, s, f)
    case MayNot => (s, Refused)
    case NoSuchKey => (s, Panic)
    case Use(k) =>
      if s.outgoing == MAX_COUNTER then (s, Panic)
      else (s.(outgoing := s.outgoing + 1), Sent(k, s.outgoing + 1))
  }

  /** The link key that opens a frame: the device's own, else the well-known one. */
  function OpeningKey(c: Config, s: State, f: Inbound): Option<Key>
    requires f.keyId != NetworkKey
  {
    var own := DeviceLinkKey(c, s, f.source);
    if f.open(SelectKey(c, own, f.keyId).value).Some? then Some(own)
    else if own != c.global && f.open(SelectKey(c, c.global, f.keyId).value).Some? then Some(c.global)
    else None
  }

  predicate Fresh(s: State, f: Inbound) {
    var minimum := At(s, f.source).counter;
    minimum.None? || f.counter >= minimum.value
  }

  function Decrypt(c: Config, s: State, f: Inbound): (State, Option<(Plain, Applied)>) {
    if f.counter == MAX_COUNTER then (s, None)
    else if f.keyId == NetworkKey then
      (s, if f.open(f.network).Some? then Some((f.open(f.network).value, Network)) else None)
    else
      match OpeningKey(c, s, f)
      case None => (s, None)
      case Some(link) =>
        var plain := f.open(SelectKey(c, link, f.keyId).value).value;
        if link == c.global then (s, Some((plain, Global)))
        else if !Fresh(s, f) then (s, None)
        else (Put(s, f.source, At(s, f.source).(counter := Some(f.counter + 1))), Some((plain, Pair)))
  }

  // ---------------------------------------------------------------- runs

  datatype Op =
    | RestoreKey(e: Eui64, key: Key)
    | RestoreIncoming(e: Eui64, counter: u32)
    | RestoreOutgoing(counter: u32)
    | SetProvisional(e: Eui64, key: Key)
    | Join(e: Eui64)
    | Issue(e: Eui64, random: Key)
    | Verify(e: Eui64, hash: Hash)
    | Encrypt(what: Sealing)
    | Receive(frame: Inbound)

  datatype Event =
    | Stored
    | Joined(kept: Option<Key>)
    | Issued(e: Eui64, key: Key)
    | Checked(e: Eui64, answer: Option<bool>)
    | Encrypted(sealed: Sealed)
    | Received(source: Eui64, counter: u32, result: Option<(Plain, Applied)>)

  function Step(c: Config, s: State, op: Op): (State, Event) {
    match op
    case RestoreKey(e, k) => (Put(s, e, At(s, e).(key := Some(LinkKey(k, Verified)))), Stored)
    case RestoreIncoming(e, n) => (Put(s, e, At(s, e).(counter := Some(n))), Stored)
    case RestoreOutgoing(n) => (s.(outgoing := if n > s.outgoing then n else s.outgoing), Stored)
    case SetProvisional(e, k) => (Put(s, e, At(s, e).(key := Some(LinkKey(k, Provisional)))), Stored)
    case Join(e) => var r := BeginJoin(s, e); (r.0, Joined(r.1))
    case Issue(e, k) => (IssueKey(c, s, e, k), Issued(e, IssuedKey(c, e, k)))
    case Verify(e, h) => var r := VerifyKey(c, s, e, h); (r.0, Checked(e, r.1))
    case Encrypt(f) => var r := Seal(c, s, f); (r.0, Encrypted(r.1))
    case Receive(f) => var r := Decrypt(c, s, f); (r.0, Received(f.source, f.counter, r.1))
  }

  datatype Trace = Trace(state: State, log: seq<Event>)

  const Started := Trace(State(map[], 0), [])

  function Run(c: Config, ops: seq<Op>): Trace {
    if ops == [] then Started
    else
      var t := Run(c, ops[..|ops| - 1]);
      var r := Step(c, t.state, ops[|ops| - 1]);
      Trace(r.0, t.log + [r.1])
  }

  // ---------------------------------------------------------------- replay safety

  /** A frame accepted under the source's unique link key. */
  predicate AcceptedFrom(ev: Event, e: Eui64) {
    ev.Received? && ev.source == e && ev.result.Some? && ev.result.value.1 == Pair
  }

  /** Every counter accepted so far is below what its source is now held to. */
  ghost predicate Guarded(t: Trace) {
    forall i, e :: 0 <= i < |t.log| && AcceptedFrom(t.log[i], e)
      ==> At(t.state, e).counter.Some? && t.log[i].counter < At(t.state, e).counter.value
  }

  /** Restoring a counter is the one operation that can lower it. */
  predicate Lowers(s: State, op: Op) {
    op.RestoreIncoming? && At(s, op.e).counter.Some? && op.counter < At(s, op.e).counter.value
  }

  lemma CountersOnlyRise(c: Config, s: State, op: Op, e: Eui64)
    requires !Lowers(s, op) && At(s, e).counter.Some?
    ensures var n := At(Step(c, s, op).0, e).counter; n.Some? && n.value >= At(s, e).counter.value
  {
  }

  lemma AcceptanceRaises(c: Config, s: State, op: Op, e: Eui64)
    requires AcceptedFrom(Step(c, s, op).1, e)
    ensures op.Receive? && op.frame.source == e && Fresh(s, op.frame)
    ensures At(Step(c, s, op).0, e).counter == Some(op.frame.counter + 1)
  {
  }

  lemma StepKeepsGuard(c: Config, t: Trace, op: Op)
    requires Guarded(t) && !Lowers(t.state, op)
    ensures var r := Step(c, t.state, op); Guarded(Trace(r.0, t.log + [r.1]))
  {
    var r := Step(c, t.state, op);
    var log := t.log + [r.1];
    forall i, e | 0 <= i < |log| && AcceptedFrom(log[i], e)
      ensures At(r.0, e).counter.Some? && log[i].counter < At(r.0, e).counter.value
    {
      if i < |t.log| {
        assert log[i] == t.log[i];
        CountersOnlyRise(c, t.state, op, e);
      } else {
        AcceptanceRaises(c, t.state, op, e);
      }
    }
  }

  /** No restore of the run lowers a counter. */
  predicate NeverLowers(c: Config, ops: seq<Op>) {
    ops == [] || (NeverLowers(c, ops[..|ops| - 1]) && !Lowers(Run(c, ops[..|ops| - 1]).state, ops[|ops| - 1]))
  }

  /** Frames accepted from one source under its unique link key carry strictly increasing
      counters. */
  ghost predicate Rising(log: seq<Event>) {
    forall i, j, e :: 0 <= i < j < |log| && AcceptedFrom(log[i], e) && AcceptedFrom(log[j], e)
      ==> log[i].counter < log[j].counter
  }

  lemma StepKeepsRising(c: Config, t: Trace, op: Op)
    requires Guarded(t) && Rising(t.log)
    ensures Rising(t.log + [Step(c, t.state, op).1])
  {
    var ev := Step(c, t.state, op).1;
    var log := t.log + [ev];
    forall i, j, e | 0 <= i < j < |log| && AcceptedFrom(log[i], e) && AcceptedFrom(log[j], e)
      ensures log[i].counter < log[j].counter
    {
      assert log[i] == t.log[i];
      if j == |t.log| {
        AcceptanceRaises(c, t.state, op, e);
      } else {
        assert log[j] == t.log[j];
      }
    }
  }

  /** Replay safety: over any run in which no restore lowers a counter, the frames accepted
      from one source under its unique link key carry strictly increasing counters. */
  lemma {:induction false} ReplaySafety(c: Config, ops: seq<Op>)
    requires NeverLowers(c, ops)
    ensures Guarded(Run(c, ops)) && Rising(Run(c, ops).log)
  {
    if ops != [] {
      var t, op := Run(c, ops[..|ops| - 1]), ops[|ops| - 1];
      ReplaySafety(c, ops[..|ops| - 1]);
      StepKeepsGuard(c, t, op);
      StepKeepsRising(c, t, op);
    }
  }

  /** The counter of the frame last accepted from a source under its unique link key. */
  function LastAccepted(log: seq<Event>, e: Eui64): Option<u32> {
    if log == [] then None
    else
      var ev := log[|log| - 1];
      if AcceptedFrom(ev, e) then Some(ev.counter) else LastAccepted(log[..|log| - 1], e)
  }

  /** What a source is held to is one past what was last accepted from it. */
  ghost predicate Remembers(t: Trace) {
    forall e :: At(t.state, e).counter == HeldTo(t.log, e)
  }

  function HeldTo(log: seq<Event>, e: Eui64): Option<u32> {
    match LastAccepted(log, e) case None => None case Some(n) => if n < MAX_COUNTER then Some(n + 1) else None
  }

  lemma CounterMovesOnAcceptance(c: Config, s: State, op: Op, e: Eui64)
    requires !op.RestoreIncoming?
    ensures var r := Step(c, s, op);
      if AcceptedFrom(r.1, e) then r.1.counter < MAX_COUNTER && At(r.0, e).counter == Some(r.1.counter + 1)
      else At(r.0, e).counter == At(s, e).counter
  {
  }

  predicate NoRestores(ops: seq<Op>) {
    forall i :: 0 <= i < |ops| ==> !ops[i].RestoreIncoming?
  }

  lemma StepRemembers(c: Config, t: Trace, op: Op, e: Eui64)
    requires !op.RestoreIncoming? && At(t.state, e).counter == HeldTo(t.log, e)
    ensures var r := Step(c, t.state, op); At(r.0, e).counter == HeldTo(t.log + [r.1], e)
  {
    CounterMovesOnAcceptance(c, t.state, op, e);
    var ev := Step(c, t.state, op).1;
    assert (t.log + [ev])[..|t.log|] == t.log;
  }

  lemma {:induction false} RunRemembers(c: Config, ops: seq<Op>)
    requires NoRestores(ops)
    ensures Remembers(Run(c, ops)) && NeverLowers(c, ops)
  {
    if ops != [] {
      var t, op := Run(c, ops[..|ops| - 1]), ops[|ops| - 1];
      RunRemembers(c, ops[..|ops| - 1]);
      forall e ensures At(Run(c, ops).state, e).counter == HeldTo(Run(c, ops).log, e) {
        StepRemembers(c, t, op, e);
      }
    }
  }

  lemma {:induction false} LastAcceptedIsLogged(log: seq<Event>, e: Eui64) returns (i: nat)
    requires LastAccepted(log, e).Some?
    ensures i < |log| && AcceptedFrom(log[i], e) && Some(log[i].counter) == LastAccepted(log, e)
  {
    if AcceptedFrom(log[|log| - 1], e) {
      i := |log| - 1;
    } else {
      i := LastAcceptedIsLogged(log[..|log| - 1], e);
    }
  }

  lemma {:induction false} NoneAccepted(log: seq<Event>, e: Eui64, i: nat)
    requires LastAccepted(log, e).None? && i < |log|
    ensures !AcceptedFrom(log[i], e)
  {
    if i < |log| - 1 {
      NoneAccepted(log[..|log| - 1], e, i);
    }
  }

  /** The frame's counter is above that of every frame accepted from its source under its
      unique link key. */
  ghost predicate Newest(log: seq<Event>, f: Inbound) {
    forall i :: 0 <= i < |log| && AcceptedFrom(log[i], f.source) ==> log[i].counter < f.counter
  }

  /** Keeping one number per source decides that exactly. */
  lemma FreshIffNewest(c: Config, ops: seq<Op>, f: Inbound)
    requires NoRestores(ops) && f.counter != MAX_COUNTER
    ensures Fresh(Run(c, ops).state, f) <==> Newest(Run(c, ops).log, f)
  {
    var t, e := Run(c, ops), f.source;
    RunRemembers(c, ops);
    ReplaySafety(c, ops);
    if LastAccepted(t.log, e).None? {
      forall i | 0 <= i < |t.log| ensures !AcceptedFrom(t.log[i], e) {
        NoneAccepted(t.log, e, i);
      }
    } else {
      var i := LastAcceptedIsLogged(t.log, e);
      assert AcceptedFrom(t.log[i], e);
    }
  }

  predicate Opens(c: Config, f: Inbound, link: Key)
    requires f.keyId != NetworkKey
  {
    f.open(SelectKey(c, link, f.keyId).value).Some?
  }

  /** Acceptance of any frame after any run without a restored counter: the maximum counter is
      never accepted; a frame under the network key needs only to open; one that opens under
      its source's own link key must, unless that is the well-known one, be newer than every
      frame so accepted before; any other must open under the well-known key. */
  lemma AcceptedIff(c: Config, ops: seq<Op>, f: Inbound)
    requires NoRestores(ops)
    ensures var t := Run(c, ops);
      var own := DeviceLinkKey(c, t.state, f.source);
      Decrypt(c, t.state, f).1.Some?
      <==> f.counter != MAX_COUNTER
           && if f.keyId == NetworkKey then f.open(f.network).Some?
              else if Opens(c, f, own) then own == c.global || Newest(t.log, f)
              else Opens(c, f, c.global)
  {
    if f.counter != MAX_COUNTER {
      FreshIffNewest(c, ops, f);
    }
  }

  /** A restore lets a frame that was accepted be accepted again exactly when it takes the
      counter back to that frame's or lower. */
  lemma RestoreReopensIff(c: Config, s: State, f: Inbound, n: u32)
    requires f.keyId != NetworkKey && AcceptedFrom(Step(c, s, Receive(f)).1, f.source)
    ensures var after := Step(c, s, Receive(f)).0;
      var restored := Step(c, after, RestoreIncoming(f.source, n)).0;
      && !AcceptedFrom(Step(c, after, Receive(f)).1, f.source)
      && (AcceptedFrom(Step(c, restored, Receive(f)).1, f.source) <==> n <= f.counter)
  {
    var after := Step(c, s, Receive(f)).0;
    var restored := Step(c, after, RestoreIncoming(f.source, n)).0;
    assert At(after, f.source) == At(s, f.source).(counter := Some(f.counter + 1));
    assert At(restored, f.source) == At(s, f.source).(counter := Some(n));
    SameKeySameOpening(c, s, after, f);
    SameKeySameOpening(c, s, restored, f);
  }

  lemma SameKeySameOpening(c: Config, s: State, t: State, f: Inbound)
    requires f.keyId != NetworkKey && At(s, f.source).key == At(t, f.source).key
    ensures OpeningKey(c, s, f) == OpeningKey(c, t, f)
  {
  }

  /** A rejected frame leaves the state as it was. */
  lemma RejectionIsSilent(c: Config, s: State, f: Inbound)
    requires Decrypt(c, s, f).1.None?
    ensures Decrypt(c, s, f).0 == s
  {
  }

  // ---------------------------------------------------------------- key lifecycle

  /** Which operations may replace a device's link key. */
  predicate MayRekey(c: Config, s: State, op: Op) {
    || op.RestoreKey? || op.SetProvisional? || op.Join?
    || (op.Verify? && At(s, op.e).pending.Some? && VerifyKey(c, s, op.e, op.hash).1 == Some(true))
  }

  /** Issuing keys, failed verifies, encryption, decryption and counter restores leave every
      device's link key alone. */
  lemma LinkKeyIsStable(c: Config, s: State, op: Op, e: Eui64)
    requires !MayRekey(c, s, op)
    ensures DeviceLinkKey(c, Step(c, s, op).0, e) == DeviceLinkKey(c, s, e)
  {
  }

  /** The key most recently issued to a device. */
  function LastIssued(log: seq<Event>, e: Eui64): Option<Key> {
    if log == [] then None
    else
      var ev := log[|log| - 1];
      if ev.Issued? && ev.e == e then Some(ev.key) else LastIssued(log[..|log| - 1], e)
  }

  lemma LastIssuedAppend(log: seq<Event>, ev: Event, e: Eui64)
    ensures LastIssued(log + [ev], e) == if ev.Issued? && ev.e == e then Some(ev.key) else LastIssued(log, e)
  {
    assert (log + [ev])[..|log|] == log;
  }

  /** A pending key is the one last issued, and no stored key is unverified. */
  ghost predicate Keyed(t: Trace) {
    forall e :: e in t.state.devices ==>
      var d := t.state.devices[e];
      && (d.pending.Some? ==> LastIssued(t.log, e) == d.pending)
      && (d.key.Some? ==> d.key.value.attributes != Unverified)
  }

  lemma PendingComesFromIssue(c: Config, s: State, op: Op, e: Eui64)
    ensures var before, after := At(s, e), At(Step(c, s, op).0, e);
      if op.Issue? && op.e == e then after.pending == Some(IssuedKey(c, e, op.random))
      else after.pending == before.pending || after.pending.None?
  {
  }

  lemma StoredKeysAreUsable(c: Config, s: State, op: Op, e: Eui64)
    requires At(s, e).key.Some? ==> At(s, e).key.value.attributes != Unverified
    ensures var k := At(Step(c, s, op).0, e).key; k.Some? ==> k.value.attributes != Unverified
  {
  }

  lemma StepKeepsKeyed(c: Config, t: Trace, op: Op)
    requires Keyed(t)
    ensures var r := Step(c, t.state, op); Keyed(Trace(r.0, t.log + [r.1]))
  {
    var r := Step(c, t.state, op);
    forall e | e in r.0.devices
      ensures var d := r.0.devices[e];
        && (d.pending.Some? ==> LastIssued(t.log + [r.1], e) == d.pending)
        && (d.key.Some? ==> d.key.value.attributes != Unverified)
    {
      LastIssuedAppend(t.log, r.1, e);
      PendingComesFromIssue(c, t.state, op, e);
      StoredKeysAreUsable(c, t.state, op, e);
    }
  }

  lemma {:induction false} RunIsKeyed(c: Config, ops: seq<Op>)
    ensures Keyed(Run(c, ops))
  {
    if ops != [] {
      RunIsKeyed(c, ops[..|ops| - 1]);
      StepKeepsKeyed(c, Run(c, ops[..|ops| - 1]), ops[|ops| - 1]);
    }
  }

  /** The key a verify is about: the pending one, or without one the stored one. */
  function Claimed(s: State, e: Eui64): Option<Key> {
    var d := At(s, e);
    if d.pending.Some? then d.pending else if d.key.Some? then Some(d.key.value.key) else None
  }

  /** Every answer to a verify, in every state: none exactly without a key on record, yes
      exactly when the key hashes to what was sent, and only a yes changes anything, namely
      that this key is now the stored one, verified, and nothing is pending. */
  lemma VerifyIff(c: Config, s: State, e: Eui64, hash: Hash)
    ensures var (t, answer) := VerifyKey(c, s, e, hash);
      && (answer == None <==> Claimed(s, e) == None)
      && (answer == Some(true) <==> Claimed(s, e).Some? && c.hash(Claimed(s, e).value) == hash)
      && (answer != Some(true) ==> t == s)
      && (answer == Some(true) ==>
            && At(t, e) == Device(Some(LinkKey(Claimed(s, e).value, Verified)), None, At(s, e).counter)
            && OnlyAt(s, t, e) && t.outgoing == s.outgoing)
  {
  }

  /** What makes a stored key a verified one. */
  predicate Vouches(c: Config, op: Op, ev: Event, e: Eui64, k: Key) {
    || op == RestoreKey(e, k)
    || (op.Verify? && op.e == e && c.hash(k) == op.hash && ev == Checked(e, Some(true)))
  }

  lemma VerifiedStep(c: Config, s: State, op: Op, e: Eui64, k: Key)
    requires At(Step(c, s, op).0, e).key == Some(LinkKey(k, Verified))
    ensures Vouches(c, op, Step(c, s, op).1, e, k) || At(s, e).key == Some(LinkKey(k, Verified))
  {
  }

  /** Over any run a key is on record as verified only after a restore of it, or after the
      device sent its hash. */
  lemma {:induction false} VerifiedIsEarned(c: Config, ops: seq<Op>, e: Eui64, k: Key) returns (i: nat)
    requires At(Run(c, ops).state, e).key == Some(LinkKey(k, Verified))
    ensures i < |ops| && i < |Run(c, ops).log| && Vouches(c, ops[i], Run(c, ops).log[i], e, k)
  {
    var front, op := ops[..|ops| - 1], ops[|ops| - 1];
    var t := Run(c, front);
    LogLength(c, front);
    VerifiedStep(c, t.state, op, e, k);
    if At(t.state, e).key == Some(LinkKey(k, Verified)) {
      i := VerifiedIsEarned(c, front, e, k);
      assert Run(c, ops).log[i] == t.log[i];
    } else {
      i := |front|;
    }
  }

  lemma LogLength(c: Config, ops: seq<Op>)
    ensures |Run(c, ops).log| == |ops|
  {
  }

  /** With a seed, the key issued to a device is the one it shares with us when none is on
      record; without one it is the random one, and the shared one is the well-known key. */
  lemma SeedDecides(c: Config, s: State, e: Eui64, random: Key)
    ensures c.seed.Some? ==> IssuedKey(c, e, random) == c.seed.value(e)
    ensures c.seed.None? ==> IssuedKey(c, e, random) == random
    ensures At(s, e).key.None? ==>
      DeviceLinkKey(c, s, e) == (if c.seed.Some? then c.seed.value(e) else c.global) && JoinLinkKey(c, s, e) == c.global
    ensures At(s, e).key.Some? ==> DeviceLinkKey(c, s, e) == JoinLinkKey(c, s, e) == At(s, e).key.value.key
  {
  }

  /** A provisional key survives a fresh join, a restored one does not; each is in use until
      then. */
  lemma JoinAfterStore(c: Config, s: State, e: Eui64, k: Key)
    ensures var p := Step(c, s, SetProvisional(e, k)).0;
      && DeviceLinkKey(c, p, e) == k && OnlyAt(s, p, e)
      && At(p, e).pending == At(s, e).pending && At(p, e).counter == At(s, e).counter
      && BeginJoin(p, e).1 == Some(k) && JoinLinkKey(c, BeginJoin(p, e).0, e) == k
    ensures var r := Step(c, s, RestoreKey(e, k)).0;
      && DeviceLinkKey(c, r, e) == k && OnlyAt(s, r, e)
      && At(r, e).pending == At(s, e).pending && At(r, e).counter == At(s, e).counter
      && At(r, e).key == Some(LinkKey(k, Verified))
      && BeginJoin(r, e).1 == None && JoinLinkKey(c, BeginJoin(r, e).0, e) == c.global
  {
  }

  /** After any run, a verify of a pending key that succeeds makes the device's link key the
      one last issued to it; one that fails changes nothing. */
  lemma VerifyPromotesLastIssued(c: Config, ops: seq<Op>, e: Eui64, hash: Hash)
    requires At(Run(c, ops).state, e).pending.Some?
    ensures var t := Run(c, ops);
      var r := VerifyKey(c, t.state, e, hash);
      if r.1 == Some(true) then Some(DeviceLinkKey(c, r.0, e)) == LastIssued(t.log, e)
                                && c.hash(DeviceLinkKey(c, r.0, e)) == hash
      else r == (t.state, Some(false))
  {
    RunIsKeyed(c, ops);
  }

  /** After any run, data frames and acknowledgements for any device are sealed with its link
      key, unless the outgoing counter is used up. */
  lemma DataIsAlwaysSealed(c: Config, ops: seq<Op>, e: Eui64)
    requires Run(c, ops).state.outgoing < MAX_COUNTER
    ensures var s := Run(c, ops).state;
      Seal(c, s, ForData(e)).1 == Sent(DeviceLinkKey(c, s, e), s.outgoing + 1)
  {
    RunIsKeyed(c, ops);
  }

  /** A device that joins afresh keeps a provisional key, which is returned, and its replay
      counter; any other key and a key not yet verified are gone, and other devices are left
      alone. */
  lemma JoinKeepsProvisional(c: Config, s: State, e: Eui64)
    ensures var (t, kept) := BeginJoin(s, e);
      var before, after := At(s, e), At(t, e);
      && OnlyAt(s, t, e) && t.outgoing == s.outgoing
      && after.pending.None? && after.counter == before.counter
      && after.key == (if before.key.Some? && before.key.value.attributes == Provisional then before.key else None)
      && JoinLinkKey(c, t, e) == (if kept.Some? then kept.value else c.global)
  {
  }

  /** A reply secured as its request was uses a key that opens the request. */
  lemma ReplyUsesRequestKey(c: Config, s: State, f: Inbound)
    requires f.keyId != NetworkKey && Decrypt(c, s, f).1.Some?
    ensures var (t, r) := Decrypt(c, s, f);
      var choice := SealingKey(c, t, WithApplied(f.source, r.value.1, f.keyId));
      choice.Use? && f.open(choice.key) == Some(r.value.0)
  {
    LinkKeyIsStable(c, s, Receive(f), f.source);
  }

  /** Which key secures what: key transport and key load use their own derivation of the link
      key, data the link key itself, and the network key nothing of ours. */
  function DerivedFrom(c: Config, link: Key, id: KeyId): Choice {
    match id
    case KeyTransportKey => Use(c.transport(link))
    case KeyLoadKey => Use(c.load(link))
    case DataKey => Use(link)
    case NetworkKey => NoSuchKey
  }

  lemma SealedWith(c: Config, s: State, e: Eui64, link: Key, id: KeyId)
    ensures SealingKey(c, s, ForCommand(e, id)) == DerivedFrom(c, DeviceLinkKey(c, s, e), id)
    ensures SealingKey(c, s, WithLinkKey(link, id)) == DerivedFrom(c, link, id)
    ensures SealingKey(c, s, WithApplied(e, Network, id)) == MayNot
    ensures SealingKey(c, s, WithApplied(e, Pair, id)) == DerivedFrom(c, DeviceLinkKey(c, s, e), id)
    ensures SealingKey(c, s, WithApplied(e, Global, id)) == DerivedFrom(c, c.global, id)
  {
  }

  /** What opened an accepted frame: the network key if it says so, else the derivation its key
      id names of the source's link key or of the well-known one. */
  lemma OpenedWith(c: Config, s: State, f: Inbound)
    requires Decrypt(c, s, f).1.Some?
    ensures var (plain, applied) := Decrypt(c, s, f).1.value;
      match applied
      case Network => f.keyId == NetworkKey && f.open(f.network) == Some(plain)
      case Pair =>
        var k := DerivedFrom(c, DeviceLinkKey(c, s, f.source), f.keyId);
        k.Use? && f.open(k.key) == Some(plain) && DeviceLinkKey(c, s, f.source) != c.global
      case Global =>
        var k := DerivedFrom(c, c.global, f.keyId);
        k.Use? && f.open(k.key) == Some(plain)
  {
  }

  /** A refusal draws no counter, and one that was restored is never drawn again. */
  lemma CountersAreDrawn(c: Config, s: State, f: Sealing, n: u32)
    ensures !Seal(c, s, f).1.Sent? ==> Seal(c, s, f).0 == s
    ensures var r := Seal(c, Step(c, s, RestoreOutgoing(n)).0, f).1; r.Sent? ==> r.counter > n && r.counter > s.outgoing
  {
  }

  // ---------------------------------------------------------------- outgoing counters

  predicate SentWith(ev: Event, n: u32) {
    ev.Encrypted? && ev.sealed.Sent? && ev.sealed.counter == n
  }

  /** Counters drawn so far ascend and do not pass the one kept. */
  ghost predicate Drawn(t: Trace) {
    && (forall i, n: u32 :: 0 <= i < |t.log| && SentWith(t.log[i], n) ==> n <= t.state.outgoing)
    && (forall i, j, m: u32, n: u32 :: 0 <= i < j < |t.log| && SentWith(t.log[i], m) && SentWith(t.log[j], n) ==> m < n)
  }

  lemma OutgoingOnlyRises(c: Config, s: State, op: Op, n: u32)
    ensures Step(c, s, op).0.outgoing >= s.outgoing
    ensures SentWith(Step(c, s, op).1, n) ==> s.outgoing < n == Step(c, s, op).0.outgoing
  {
  }

  lemma StepKeepsDrawn(c: Config, t: Trace, op: Op)
    requires Drawn(t)
    ensures var r := Step(c, t.state, op); Drawn(Trace(r.0, t.log + [r.1]))
  {
    var r := Step(c, t.state, op);
    var log := t.log + [r.1];
    forall i, n: u32 | 0 <= i < |log| && SentWith(log[i], n) ensures n <= r.0.outgoing {
      OutgoingOnlyRises(c, t.state, op, n);
      if i < |t.log| {
        assert log[i] == t.log[i];
      }
    }
    forall i, j, m: u32, n: u32 | 0 <= i < j < |log| && SentWith(log[i], m) && SentWith(log[j], n) ensures m < n {
      assert log[i] == t.log[i];
      OutgoingOnlyRises(c, t.state, op, n);
      if j < |t.log| {
        assert log[j] == t.log[j];
      }
    }
  }

  /** No nonce is reused: over any run, with any restores, the counters of sealed frames are
      strictly increasing. */
  lemma {:induction false} NoncesAreUnique(c: Config, ops: seq<Op>)
    ensures Drawn(Run(c, ops))
  {
    if ops != [] {
      NoncesAreUnique(c, ops[..|ops| - 1]);
      StepKeepsDrawn(c, Run(c, ops[..|ops| - 1]), ops[|ops| - 1]);
    }
  }

  // ---------------------------------------------------------------- pruning

  /** An entry with nothing in it is as good as none. */
  ghost predicate Alike(s: State, t: State) {
    s.outgoing == t.outgoing && forall e :: At(s, e) == At(t, e)
  }

  ghost predicate OnlyAt(s: State, s2: State, e: Eui64) {
    forall x :: x != e ==> At(s2, x) == At(s, x)
  }

  lemma AlikeAfter(s: State, t: State, s2: State, t2: State, e: Eui64)
    requires Alike(s, t) && OnlyAt(s, s2, e) && OnlyAt(t, t2, e)
    requires s2.outgoing == t2.outgoing && At(s2, e) == At(t2, e)
    ensures Alike(s2, t2)
  {
    forall x ensures At(s2, x) == At(t2, x) {
      assert At(s, x) == At(t, x);
    }
  }

  lemma JoinIsAlike(s: State, t: State, e: Eui64)
    requires Alike(s, t)
    ensures BeginJoin(s, e).1 == BeginJoin(t, e).1 && Alike(BeginJoin(s, e).0, BeginJoin(t, e).0)
  {
    assert At(s, e) == At(t, e);
    AlikeAfter(s, t, BeginJoin(s, e).0, BeginJoin(t, e).0, e);
  }

  lemma VerifyIsAlike(c: Config, s: State, t: State, e: Eui64, hash: Hash)
    requires Alike(s, t)
    ensures VerifyKey(c, s, e, hash).1 == VerifyKey(c, t, e, hash).1
    ensures Alike(VerifyKey(c, s, e, hash).0, VerifyKey(c, t, e, hash).0)
  {
    assert At(s, e) == At(t, e);
    AlikeAfter(s, t, VerifyKey(c, s, e, hash).0, VerifyKey(c, t, e, hash).0, e);
  }

  lemma DecryptIsAlike(c: Config, s: State, t: State, f: Inbound)
    requires Alike(s, t)
    ensures Decrypt(c, s, f).1 == Decrypt(c, t, f).1 && Alike(Decrypt(c, s, f).0, Decrypt(c, t, f).0)
  {
    assert At(s, f.source) == At(t, f.source);
    if f.keyId != NetworkKey {
      SameKeySameOpening(c, s, t, f);
    }
    AlikeAfter(s, t, Decrypt(c, s, f).0, Decrypt(c, t, f).0, f.source);
  }

  lemma SealIsAlike(c: Config, s: State, t: State, f: Sealing)
    requires Alike(s, t)
    ensures Seal(c, s, f).1 == Seal(c, t, f).1 && Alike(Seal(c, s, f).0, Seal(c, t, f).0)
  {
    var e := match f
      case ForData(d) => d
      case ForCommand(d, _) => d
      case WithLinkKey(_, _) => 0
      case WithApplied(d, _, _) => d;
    assert At(s, e) == At(t, e);
    assert SealingKey(c, s, f) == SealingKey(c, t, f);
    AlikeAfter(s, t, Seal(c, s, f).0, Seal(c, t, f).0, e);
  }

  lemma PutIsAlike(s: State, t: State, e: Eui64, d: Device)
    requires Alike(s, t)
    ensures Alike(Put(s, e, d), Put(t, e, d))
  {
    AlikeAfter(s, t, Put(s, e, d), Put(t, e, d), e);
  }

  lemma StepIsAlike(c: Config, s: State, t: State, op: Op)
    requires Alike(s, t)
    ensures Step(c, s, op).1 == Step(c, t, op).1 && Alike(Step(c, s, op).0, Step(c, t, op).0)
  {
    match op
    case Receive(f) => DecryptIsAlike(c, s, t, f);
    case Encrypt(f) => SealIsAlike(c, s, t, f);
    case Join(e) => JoinIsAlike(s, t, e);
    case Verify(e, h) => VerifyIsAlike(c, s, t, e, h);
    case RestoreOutgoing(n) =>
      assert At(s, 0) == At(t, 0);
      AlikeAfter(s, t, Step(c, s, op).0, Step(c, t, op).0, 0);
    case RestoreKey(e, k) => PutIsAlike(s, t, e, At(s, e).(key := Some(LinkKey(k, Verified))));
    case SetProvisional(e, k) => PutIsAlike(s, t, e, At(s, e).(key := Some(LinkKey(k, Provisional))));
    case RestoreIncoming(e, n) => PutIsAlike(s, t, e, At(s, e).(counter := Some(n)));
    case Issue(e, k) => PutIsAlike(s, t, e, At(s, e).(pending := Some(IssuedKey(c, e, k))));
  }

  function Continue(c: Config, s: State, ops: seq<Op>): (r: seq<Event>)
    ensures |r| == |ops|
    decreases |ops|
  {
    if ops == [] then [] else var r := Step(c, s, ops[0]); [r.1] + Continue(c, r.0, ops[1..])
  }

  /** Whether empty entries were pruned cannot be told from any answer to any later run. */
  lemma {:induction false} PruningIsUnobservable(c: Config, s: State, t: State, ops: seq<Op>)
    requires Alike(s, t)
    ensures Continue(c, s, ops) == Continue(c, t, ops)
    decreases |ops|
  {
    if ops != [] {
      StepIsAlike(c, s, t, ops[0]);
      PruningIsUnobservable(c, Step(c, s, ops[0]).0, Step(c, t, ops[0]).0, ops[1..]);
    }
  }

  /** No entry is empty. */
  ghost predicate Pruned(s: State) {
    forall x :: x in s.devices ==> s.devices[x] != Blank
  }

  /** A join of a device that only had a pending key, or nothing at all. */
  predicate JoinsKeyless(s: State, op: Op) {
    op.Join? && op.e in s.devices && s.devices[op.e].key.None? && s.devices[op.e].counter.None?
  }

  lemma EntriesAfter(c: Config, s: State, op: Op, x: Eui64)
    requires x in Step(c, s, op).0.devices && Step(c, s, op).0.devices[x] == Blank
    ensures (JoinsKeyless(s, op) && op.e == x) || (x in s.devices && s.devices[x] == Blank)
  {
  }

  /** Of all operations exactly such a join leaves an empty entry behind. */
  lemma StaysPrunedIff(c: Config, s: State, op: Op)
    requires Pruned(s)
    ensures Pruned(Step(c, s, op).0) <==> !JoinsKeyless(s, op)
  {
    var t := Step(c, s, op).0;
    if JoinsKeyless(s, op) {
      assert t.devices[op.e] == Blank;
    } else {
      forall x | x in t.devices ensures t.devices[x] != Blank {
        if t.devices[x] == Blank {
          EntriesAfter(c, s, op, x);
        }
      }
    }
  }

  /** A key issued and then a fresh join reach one. */
  lemma BlankIsReachable(c: Config, e: Eui64, k: Key)
    ensures Run(c, [Issue(e, k), Join(e)]).state.devices == map[e := Blank]
  {
    var ops: seq<Op> := [Issue(e, k), Join(e)];
    assert ops[..1] == [Issue(e, k)] && ops[..1][..0] == [];
    assert Run(c, ops[..1][..0]) == Started;
    var one := Run(c, ops[..1]).state;
    assert one == IssueKey(c, State(map[], 0), e, k);
    assert one.devices == map[e := Device(None, Some(IssuedKey(c, e, k)), None)];
  }

  /** The entry it leaves is alike to none. */
  lemma JoinLeavesBlank(s: State, e: Eui64)
    requires e in s.devices && s.devices[e].key.None? && s.devices[e].counter.None?
    ensures var t := BeginJoin(s, e).0;
      e in t.devices && t.devices[e] == Blank && Alike(t, t.(devices := t.devices - {e}))
  {
  }

  // ---------------------------------------------------------------- the object

  class ApsSecurity {
    const config: Config
    var devices: map<Eui64, Device>
    var outgoing: u32

    function Value(): State
      reads this
    {
      State(devices, outgoing)
    }

    constructor (config: Config)
      ensures this.config == config && Value() == Started.state
    {
      this.config := config;
      devices, outgoing := map[], 0;
    }

    /** The entry of a device, created empty if there is none. */
    method EntryOrDefault(e: Eui64) returns (d: Device)
      modifies this`devices
      ensures d == At(old(Value()), e) && devices == old(devices)[e := d]
    {
      if e !in devices {
        devices := devices[e := Blank];
      }
      d := devices[e];
    }

    method PruneIfEmpty(e: Eui64)
      modifies this`devices
      ensures devices == if e in old(devices) && old(devices)[e] == Blank then old(devices) - {e} else old(devices)
    {
      if e in devices && devices[e].key.None? && devices[e].pending.None? && devices[e].counter.None? {
        devices := devices - {e};
      }
    }

    method RestoreDeviceKey(e: Eui64, key: Key)
      modifies this`devices
      ensures Value() == Step(config, old(Value()), RestoreKey(e, key)).0
    {
      var d := EntryOrDefault(e);
      devices := devices[e := d.(key := Some(LinkKey(key, Verified)))];
    }

    method RestoreIncomingFrameCounter(e: Eui64, counter: u32)
      modifies this`devices
      ensures Value() == Step(config, old(Value()), RestoreIncoming(e, counter)).0
    {
      var d := EntryOrDefault(e);
      devices := devices[e := d.(counter := Some(counter))];
    }

    method RestoreOutgoingFrameCounter(counter: u32)
      modifies this`outgoing
      ensures Value() == Step(config, old(Value()), RestoreOutgoing(counter)).0
    {
      if counter > outgoing {
        outgoing := counter;
      }
    }

    method SetProvisionalKey(e: Eui64, key: Key)
      modifies this`devices
      ensures Value() == Step(config, old(Value()), SetProvisional(e, key)).0
    {
      var d := EntryOrDefault(e);
      devices := devices[e := d.(key := Some(LinkKey(key, Provisional)))];
    }

    method BeginJoining(e: Eui64) returns (kept: Option<Key>)
      modifies this`devices
      ensures (Value(), kept) == BeginJoin(old(Value()), e)
    {
      if e !in devices {
        return None;
      }
      devices := devices[e := devices[e].(pending := None)];
      var entry := devices[e];
      if entry.key.None? {
        return None;
      }
      if entry.key.value.attributes == Provisional {
        return Some(entry.key.value.key);
      }
      devices := devices[e := entry.(key := None)];
      assert devices == old(devices)[e := entry.(key := None)];
      assert devices - {e} == old(devices) - {e};
      PruneIfEmpty(e);
      kept := None;
    }

    method IssueDeviceKey(e: Eui64, random: Key) returns (key: Key)
      modifies this`devices
      ensures Value() == IssueKey(config, old(Value()), e, random) && key == IssuedKey(config, e, random)
    {
      key := if config.seed.Some? then config.seed.value(e) else random;
      var d := EntryOrDefault(e);
      devices := devices[e := d.(pending := Some(key))];
    }

    method VerifyDeviceKey(e: Eui64, hash: Hash) returns (answer: Option<bool>)
      modifies this`devices
      ensures (Value(), answer) == VerifyKey(config, old(Value()), e, hash)
    {
      if e !in devices {
        return None;
      }
      var entry := devices[e];
      if entry.pending.Some? {
        var pending := entry.pending.value;
        if config.hash(pending) == hash {
          devices := devices[e := entry.(key := Some(LinkKey(pending, Verified)), pending := None)];
          return Some(true);
        }
        return Some(false);
      }
      if entry.key.None? {
        return None;
      }
      if config.hash(entry.key.value.key) == hash {
        devices := devices[e := entry.(key := Some(LinkKey(entry.key.value.key, Verified)))];
        return Some(true);
      }
      answer := Some(false);
    }

    method EncryptFrame(f: Sealing) returns (r: Sealed)
      modifies this`outgoing
      ensures (Value(), r) == Seal(config, old(Value()), f)
    {
      var choice := SealingKey(config, Value(), f);
      if choice.MayNot? {
        return Refused;
      }
      if choice.NoSuchKey? || outgoing == MAX_COUNTER {
        return Panic;
      }
      outgoing := outgoing + 1;
      r := Sent(choice.key, outgoing);
    }

    /** Tries the candidate keys in order; replay protection applies to unique link keys. */
    method DecryptFrame(f: Inbound) returns (r: Option<(Plain, Applied)>)
      modifies this`devices
      ensures (Value(), r) == Decrypt(config, old(Value()), f)
    {
      if f.counter == MAX_COUNTER {
        return None;
      }
      if f.keyId == NetworkKey {
        var plain := f.open(f.network);
        return if plain.Some? then Some((plain.value, Network)) else None;
      }
      var candidates := [DeviceLinkKey(config, Value(), f.source)];
      if candidates[0] != config.global {
        candidates := candidates + [config.global];
      }
      var i := 0;
      while i < |candidates| && f.open(SelectKey(config, candidates[i], f.keyId).value).None?
        invariant i <= |candidates|
        invariant forall k :: 0 <= k < i ==> f.open(SelectKey(config, candidates[k], f.keyId).value).None?
      {
        i := i + 1;
      }
      assert i > 0 ==> f.open(SelectKey(config, candidates[0], f.keyId).value).None?;
      assert i > 1 ==> f.open(SelectKey(config, candidates[1], f.keyId).value).None?;
      if i == |candidates| {
        return None;
      }
      assert OpeningKey(config, Value(), f) == Some(candidates[i]);
      var frame := f.open(SelectKey(config, candidates[i], f.keyId).value).value;
      if candidates[i] == config.global {
        return Some((frame, Global));
      }
      var minimum := At(Value(), f.source).counter;
      if minimum.Some? && f.counter < minimum.value {
        return None;
      }
      var d := EntryOrDefault(f.source);
      devices := devices[f.source := d.(counter := Some(f.counter + 1))];
      assert devices == old(devices)[f.source := d.(counter := Some(f.counter + 1))];
      r := Some((frame, Pair));
    }
  }
}
