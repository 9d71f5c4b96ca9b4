/** The NWK broadcast transaction table (section 3.6.6 of the Zigbee specification): which
    received broadcasts are duplicates, and when enough neighbours were heard relaying one. */
module BroadcastTable {
  import opened Prelude

  type Nwk = u16

  /** A broadcast is known by its originator and sequence number. */
  datatype Key = Key(source: Nwk, sequence: u8)

  /** `expected` were the router neighbours when the transaction began; `heard` are those
      that were heard relaying it. */
  datatype Transaction = Transaction(expires: Instant, expected: seq<Nwk>, heard: set<Nwk>)

  type Table = map<Key, Transaction>

  function Unexpired(t: Table, now: Instant): Table {
    map k | k in t && t[k].expires > now :: t[k]
  }

  predicate Knows(t: Table, k: Key, now: Instant) {
    k in t && t[k].expires > now
  }

  function Digest(t: Table, k: Key, sender: Nwk, audience: seq<Nwk>, now: Instant, delivery: Duration): Table {
    var live := Unexpired(t, now);
    if k in live then live[k := live[k].(heard := live[k].heard + {sender})]
    else live[k := Transaction(After(now, delivery), audience, {sender})]
  }

  function Record(t: Table, k: Key, audience: seq<Nwk>, now: Instant, delivery: Duration): Table {
    t[k := Transaction(After(now, delivery), audience, {})]
  }

  // ---------------------------------------------------------------- passive acknowledgement

  function Restricted(s: seq<Nwk>, to: set<Nwk>): seq<Nwk> {
    if s == [] then []
    else Restricted(s[..|s| - 1], to) + if s[|s| - 1] in to then [s[|s| - 1]] else []
  }

  function Elements(s: seq<Nwk>): set<Nwk> {
    set x | x in s
  }

  /** An absent transaction counts as acknowledged: its window has closed. */
  predicate Acked(t: Table, k: Key, live: seq<Nwk>, quorum: nat) {
    k in t ==>
      var audience := Restricted(t[k].expected, Elements(live));
      var heard := |Restricted(audience, t[k].heard)|;
      heard >= if |audience| < quorum then |audience| else quorum
  }

  lemma {:induction false} RestrictedCounts(s: seq<Nwk>, a: set<Nwk>, b: set<Nwk>)
    ensures |Restricted(s, a)| <= |s|
    ensures a <= b ==> |Restricted(s, a)| <= |Restricted(s, b)|
    ensures |Restricted(s, a)| == |s| <==> Elements(s) <= a
  {
    if s != [] {
      var front, x := s[..|s| - 1], s[|s| - 1];
      RestrictedCounts(front, a, b);
      assert s == front + [x];
      assert Elements(s) == Elements(front) + {x};
    }
  }

  lemma {:induction false} RestrictedElements(s: seq<Nwk>, a: set<Nwk>)
    ensures Elements(Restricted(s, a)) == Elements(s) * a
  {
    if s != [] {
      var front, x := s[..|s| - 1], s[|s| - 1];
      RestrictedElements(front, a);
      assert s == front + [x];
      assert Elements(s) == Elements(front) + {x};
      var kept: seq<Nwk> := if x in a then [x] else [];
      assert Elements(Restricted(front, a) + kept) == Elements(Restricted(front, a)) + Elements(kept);
    }
  }

  /** A broadcast is acknowledged exactly when its transaction is gone, when a quorum of its
      live audience was heard relaying it, or when all of it was. */
  lemma AckedIff(t: Table, k: Key, live: seq<Nwk>, quorum: nat)
    ensures Acked(t, k, live, quorum)
            <==> || k !in t
                 || |Restricted(Restricted(t[k].expected, Elements(live)), t[k].heard)| >= quorum
                 || Elements(t[k].expected) * Elements(live) <= t[k].heard
  {
    if k in t {
      var audience := Restricted(t[k].expected, Elements(live));
      RestrictedCounts(audience, t[k].heard, {});
      RestrictedElements(t[k].expected, Elements(live));
    }
  }

  /** Hearing a duplicate never takes an acknowledgement back, for any broadcast. */
  lemma DuplicatesOnlyAcknowledge(t: Table, k: Key, sender: Nwk, audience: seq<Nwk>, now: Instant,
                                  delivery: Duration, other: Key, live: seq<Nwk>, quorum: nat)
    requires Knows(t, k, now) && Acked(t, other, live, quorum)
    ensures Acked(Digest(t, k, sender, audience, now, delivery), other, live, quorum)
  {
    if other == k {
      var heard := t[k].heard;
      RestrictedCounts(Restricted(t[k].expected, Elements(live)), heard, heard + {sender});
    }
  }

  // ---------------------------------------------------------------- runs

  /** What happens to a table: a broadcast of ours is sent, or one is received. */
  datatype Op =
    | Sent(key: Key, audience: seq<Nwk>, now: Instant)
    | Heard(key: Key, sender: Nwk, audience: seq<Nwk>, now: Instant)

  function Applied(t: Table, op: Op, delivery: Duration): Table {
    match op
    case Sent(k, audience, now) => Record(t, k, audience, now, delivery)
    case Heard(k, sender, audience, now) => Digest(t, k, sender, audience, now, delivery)
  }

  function TableAfter(ops: seq<Op>, delivery: Duration): Table {
    if ops == [] then map[] else Applied(TableAfter(ops[..|ops| - 1], delivery), ops[|ops| - 1], delivery)
  }

  lemma TableAfterOne(ops: seq<Op>, op: Op, delivery: Duration)
    ensures TableAfter(ops + [op], delivery) == Applied(TableAfter(ops, delivery), op, delivery)
  {
    assert (ops + [op])[..|ops|] == ops;
  }

  /** The op at which the transaction of a broadcast began, read off the history alone: when we
      last sent the broadcast, or when it was heard and no transaction lasted. It is forgotten
      when a broadcast is heard a delivery time or more after it began. */
  function Began(ops: seq<Op>, k: Key, delivery: Duration): (r: Option<nat>)
    ensures r.Some? ==> r.value < |ops|
  {
    if ops == [] then None
    else
      var last, op := |ops| - 1, ops[|ops| - 1];
      var began := Began(ops[..last], k, delivery);
      var lasts := began.Some? && op.now < After(ops[began.value].now, delivery);
      if op.key == k && (op.Sent? || !lasts) then Some(last)
      else if op.Heard? && !lasts then None
      else began
  }

  function HeardFrom(ops: seq<Op>, k: Key, since: nat): set<Nwk> {
    set i | since <= i < |ops| && ops[i].Heard? && ops[i].key == k :: ops[i].sender
  }

  /** The table holds a broadcast exactly when a transaction of it began and is not forgotten;
      its expiry and audience are those of the beginning, and it has heard exactly the senders
      from then on. */
  ghost predicate Tells(t: Table, ops: seq<Op>, k: Key, delivery: Duration) {
    var began := Began(ops, k, delivery);
    && (k in t <==> began.Some?)
    && (k in t ==> var op := ops[began.value];
                   t[k] == Transaction(After(op.now, delivery), op.audience, HeardFrom(ops, k, began.value)))
  }

  lemma HeardFromOne(ops: seq<Op>, op: Op, k: Key, since: nat)
    ensures HeardFrom(ops + [op], k, since)
            == HeardFrom(ops, k, since) + if since <= |ops| && op.Heard? && op.key == k then {op.sender} else {}
  {
    var all := ops + [op];
    forall x | x in HeardFrom(ops, k, since) ensures x in HeardFrom(all, k, since) {
      var i :| since <= i < |ops| && ops[i].Heard? && ops[i].key == k && x == ops[i].sender;
      assert all[i] == ops[i];
    }
    assert all[|ops|] == op;
  }

  /** Over every history the table tells it, for every broadcast. */
  lemma {:induction false} TableTells(ops: seq<Op>, k: Key, delivery: Duration)
    ensures Tells(TableAfter(ops, delivery), ops, k, delivery)
  {
    if ops != [] {
      var front, op := ops[..|ops| - 1], ops[|ops| - 1];
      assert ops == front + [op];
      TableTells(front, k, delivery);
      var began := Began(front, k, delivery);
      HeardFromOne(front, op, k, if began.Some? then began.value else 0);
      HeardFromOne(front, op, k, |front|);
    }
  }

  /** So a received broadcast is a duplicate exactly within a delivery time of the beginning. */
  lemma DuplicateIff(ops: seq<Op>, k: Key, now: Instant, delivery: Duration)
    ensures var began := Began(ops, k, delivery);
      Knows(TableAfter(ops, delivery), k, now)
      <==> began.Some? && now < After(ops[began.value].now, delivery)
  {
    TableTells(ops, k, delivery);
  }

  /** And a broadcast is acknowledged exactly when it is forgotten, or when of those expected
      when it began and still live a quorum was heard since, or all of them were. */
  lemma AckedByThoseHeard(ops: seq<Op>, k: Key, live: seq<Nwk>, quorum: nat, delivery: Duration)
    ensures var began := Began(ops, k, delivery);
      Acked(TableAfter(ops, delivery), k, live, quorum)
      <==> || began.None?
           || var expected, heard := ops[began.value].audience, HeardFrom(ops, k, began.value);
              || |Restricted(Restricted(expected, Elements(live)), heard)| >= quorum
              || Elements(expected) * Elements(live) <= heard
  {
    TableTells(ops, k, delivery);
    AckedIff(TableAfter(ops, delivery), k, live, quorum);
  }

  class Broadcasts {
    var table: Table

    constructor ()
      ensures table == map[]
    {
      table := map[];
    }

    /** True for a duplicate, whose sender is then counted as having acknowledged. */
    method FilterReceived(source: Nwk, sequence: u8, sender: Nwk, audience: seq<Nwk>, now: Instant, delivery: Duration)
      returns (duplicate: bool)
      modifies this
      ensures duplicate <==> Knows(old(table), Key(source, sequence), now)
      ensures table == Digest(old(table), Key(source, sequence), sender, audience, now, delivery)
    {
      var k := Key(source, sequence);
      table := map x | x in table && table[x].expires > now :: table[x];
      if k in table {
        table := table[k := table[k].(heard := table[k].heard + {sender})];
        return true;
      }
      table := table[k := Transaction(After(now, delivery), audience, {sender})];
      duplicate := false;
    }

    method RecordTransmission(source: Nwk, sequence: u8, audience: seq<Nwk>, now: Instant, delivery: Duration)
      modifies this
      ensures table == Record(old(table), Key(source, sequence), audience, now, delivery)
    {
      table := table[Key(source, sequence) := Transaction(After(now, delivery), audience, {})];
    }

    method PassivelyAcked(source: Nwk, sequence: u8, live: seq<Nwk>, quorum: nat) returns (acked: bool)
      ensures acked <==> Acked(table, Key(source, sequence), live, quorum)
    {
      var k := Key(source, sequence);
      if k !in table {
        return true;
      }
      var expected, heardFrom := table[k].expected, table[k].heard;
      var audience: seq<Nwk> := [];
      for i := 0 to |expected|
        invariant audience == Restricted(expected[..i], Elements(live))
      {
        Grow(expected, i);
        assert expected[..i + 1][..i] == expected[..i];
        if expected[i] in live {
          audience := audience + [expected[i]];
        }
      }
      assert expected[..|expected|] == expected;
      var heard := 0;
      for i := 0 to |audience|
        invariant heard == |Restricted(audience[..i], heardFrom)|
      {
        Grow(audience, i);
        assert audience[..i + 1][..i] == audience[..i];
        if audience[i] in heardFrom {
          heard := heard + 1;
        }
      }
      assert audience[..|audience|] == audience;
      acked := heard >= if |audience| < quorum then |audience| else quorum;
    }
  }
}

/** A mesh of nodes that all run the broadcast relay rule, with their own clocks and a medium
    that delivers any copy ever scheduled to any node, any number of times or never. */
module BroadcastFlood {
  import opened Prelude
  import opened BroadcastTable

  /** `delivery` is how long a transaction is remembered; a node ignores broadcasts that long
      after it starts, unless told not to wait. */
  datatype Config = Config(delivery: Duration, skipStartupWait: bool)

  datatype Node = Node(table: Table, clock: Instant)

  /** A broadcast that a node scheduled for transmission: its own, or the relay of the copy
      numbered `parent`. `hops` counts the relays since the originator. */
  datatype Copy = Copy(key: Key, radius: u8, data: bool, sender: Nwk, at: Instant, hops: nat, parent: Option<nat>)

  datatype Net = Net(nodes: map<Nwk, Node>, air: seq<Copy>)

  datatype Act =
    | Originate(me: Nwk, now: Instant, sequence: u8, radius: u8, data: bool, audience: seq<Nwk>)
    | Hear(me: Nwk, now: Instant, copy: nat, audience: seq<Nwk>)

  /** The node exists, its clock does not go back, and what it hears was sent. */
  predicate Possible(n: Net, a: Act) {
    a.me in n.nodes && a.now >= n.nodes[a.me].clock && (a.Hear? ==> a.copy < |n.air|)
  }

  predicate Waiting(c: Config, now: Instant) {
    !c.skipStartupWait && After(0, c.delivery) > now
  }

  /** A fresh broadcast of another node's data is relayed with one less to its radius, unless
      that leaves nothing. */
  function RelayRadius(c: Config, node: Node, me: Nwk, copy: Copy, now: Instant): Option<u8> {
    if Waiting(c, now) || Knows(node.table, copy.key, now) then None
    else if copy.key.source == me || !copy.data || copy.radius <= 1 then None
    else Some(copy.radius - 1)
  }

  function Step(c: Config, n: Net, a: Act): Net
    requires Possible(n, a)
  {
    var node := n.nodes[a.me];
    match a
    case Originate(me, now, sequence, radius, data, audience) =>
      var key := Key(me, sequence);
      Net(n.nodes[me := Node(Record(node.table, key, audience, now, c.delivery), now)],
          n.air + [Copy(key, radius, data, me, now, 0, None)])
    case Hear(me, now, i, audience) =>
      var copy := n.air[i];
      var table := if Waiting(c, now) then node.table
                   else Digest(node.table, copy.key, copy.sender, audience, now, c.delivery);
      var radius := RelayRadius(c, node, me, copy, now);
      Net(n.nodes[me := Node(table, now)],
          if radius.None? then n.air
          else n.air + [Copy(copy.key, radius.value, copy.data, me, now, copy.hops + 1, Some(i))])
  }

  // ---------------------------------------------------------------- lineage

  /** An origin is its source's own; a relay is another node's, one hop and one radius on. */
  predicate Descends(air: seq<Copy>, i: nat)
    requires i < |air|
  {
    var x := air[i];
    if x.parent.None? then x.hops == 0 && x.sender == x.key.source
    else x.parent.value < i
         && var p := air[x.parent.value];
            && x.key == p.key && x.sender != x.key.source
            && x.radius >= 1 && x.radius == p.radius - 1 && x.hops == p.hops + 1
  }

  ghost predicate Lineage(air: seq<Copy>) {
    forall i :: 0 <= i < |air| ==> Descends(air, i)
  }

  lemma StepKeepsLineage(c: Config, n: Net, a: Act)
    requires Possible(n, a) && Lineage(n.air)
    ensures Lineage(Step(c, n, a).air)
  {
    var air := Step(c, n, a).air;
    forall i | 0 <= i < |air| ensures Descends(air, i) {
      if i < |n.air| {
        assert Descends(n.air, i);
      }
    }
  }

  function Origin(air: seq<Copy>, i: nat): (r: nat)
    requires i < |air| && Lineage(air)
    ensures r < |air|
  {
    assert Descends(air, i);
    if air[i].parent.None? then i else Origin(air, air[i].parent.value)
  }

  /** Along any path the radius and the hops trade off, from an origin of the same key. */
  lemma {:induction false} RadiusIsSpent(air: seq<Copy>, i: nat)
    requires i < |air| && Lineage(air)
    ensures var o := air[Origin(air, i)];
      && o.parent.None? && o.sender == o.key.source && o.key == air[i].key
      && air[i].radius + air[i].hops == o.radius
  {
    assert Descends(air, i);
    if air[i].parent.Some? {
      RadiusIsSpent(air, air[i].parent.value);
    }
  }

  // ---------------------------------------------------------------- one relay per window

  predicate RelayOf(x: Copy, k: Key, me: Nwk) {
    x.parent.Some? && x.key == k && x.sender == me
  }

  /** What a node relayed it still knows, until the delivery time has passed on its clock. */
  ghost predicate Remembered(c: Config, n: Net) {
    forall i :: 0 <= i < |n.air| && n.air[i].parent.Some? ==>
      var x := n.air[i];
      && x.sender in n.nodes
      && var node := n.nodes[x.sender];
         && x.at <= node.clock
         && (node.clock >= After(x.at, c.delivery)
             || (x.key in node.table && node.table[x.key].expires >= After(x.at, c.delivery)))
  }

  lemma AfterIsMonotone(s: Instant, t: Instant, d: Duration)
    ensures s <= t ==> s <= After(s, d) <= After(t, d)
  {
  }

  lemma HearingRemembers(c: Config, n: Net, a: Act, x: Copy)
    requires Possible(n, a) && a.Hear? && x.sender in n.nodes && x.at <= n.nodes[x.sender].clock
    requires var node := n.nodes[x.sender];
      node.clock >= After(x.at, c.delivery)
      || (x.key in node.table && node.table[x.key].expires >= After(x.at, c.delivery))
    ensures var node := Step(c, n, a).nodes[x.sender];
      && x.at <= node.clock
      && (node.clock >= After(x.at, c.delivery)
          || (x.key in node.table && node.table[x.key].expires >= After(x.at, c.delivery)))
  {
    AfterIsMonotone(x.at, a.now, c.delivery);
  }

  lemma StepRemembers(c: Config, n: Net, a: Act)
    requires Possible(n, a) && Remembered(c, n)
    ensures Remembered(c, Step(c, n, a))
  {
    var m := Step(c, n, a);
    forall i | 0 <= i < |m.air| && m.air[i].parent.Some?
      ensures var x := m.air[i];
        && x.sender in m.nodes
        && var node := m.nodes[x.sender];
           && x.at <= node.clock
           && (node.clock >= After(x.at, c.delivery)
               || (x.key in node.table && node.table[x.key].expires >= After(x.at, c.delivery)))
    {
      if i < |n.air| {
        assert m.air[i] == n.air[i];
        AfterIsMonotone(n.air[i].at, a.now, c.delivery);
        if a.Hear? {
          HearingRemembers(c, n, a, n.air[i]);
        }
      }
    }
  }

  /** Relays by one node of one broadcast are a delivery time apart on its clock. */
  ghost predicate Spaced(c: Config, air: seq<Copy>) {
    forall i, j, k, me :: 0 <= i < j < |air| && RelayOf(air[i], k, me) && RelayOf(air[j], k, me)
      ==> air[j].at >= After(air[i].at, c.delivery)
  }

  lemma StepKeepsSpacing(c: Config, n: Net, a: Act)
    requires Possible(n, a) && Remembered(c, n) && Spaced(c, n.air)
    ensures Spaced(c, Step(c, n, a).air)
  {
    var air := Step(c, n, a).air;
    forall i, j, k, me | 0 <= i < j < |air| && RelayOf(air[i], k, me) && RelayOf(air[j], k, me)
      ensures air[j].at >= After(air[i].at, c.delivery)
    {
      assert air[i] == n.air[i];
      if j < |n.air| {
        assert air[j] == n.air[j];
      }
    }
  }

  /** No relay is scheduled in the first delivery time after start. */
  ghost predicate Patient(c: Config, air: seq<Copy>) {
    !c.skipStartupWait ==> forall i :: 0 <= i < |air| && air[i].parent.Some? ==> air[i].at >= After(0, c.delivery)
  }

  function Run(c: Config, start: Net, acts: seq<Act>): Option<Net> {
    if acts == [] then Some(start)
    else
      var n := Run(c, start, acts[..|acts| - 1]);
      if n.Some? && Possible(n.value, acts[|acts| - 1]) then Some(Step(c, n.value, acts[|acts| - 1])) else None
  }

  /** Whatever is possible happens. */
  lemma RunGoesOn(c: Config, start: Net, acts: seq<Act>, a: Act)
    requires Run(c, start, acts).Some? && Possible(Run(c, start, acts).value, a)
    ensures Run(c, start, []) == Some(start)
    ensures Run(c, start, acts + [a]) == Some(Step(c, Run(c, start, acts).value, a))
  {
    assert (acts + [a])[..|acts|] == acts;
  }

  /** Flood safety: in every run of any mesh from silence, each relay is another node's
      broadcast with a strictly smaller radius, two relays of one broadcast by one node are a
      delivery time apart, and none comes before the startup wait is over. */
  lemma {:induction false} FloodSafety(c: Config, start: Net, acts: seq<Act>)
    requires start.air == [] && Run(c, start, acts).Some?
    ensures var n := Run(c, start, acts).value;
      && Lineage(n.air) && Spaced(c, n.air) && Patient(c, n.air)
      && Remembered(c, n) && n.nodes.Keys == start.nodes.Keys
  {
    if acts != [] {
      var n, a := Run(c, start, acts[..|acts| - 1]).value, acts[|acts| - 1];
      FloodSafety(c, start, acts[..|acts| - 1]);
      StepKeepsLineage(c, n, a);
      StepRemembers(c, n, a);
      StepKeepsSpacing(c, n, a);
    }
  }

  // ---------------------------------------------------------------- which broadcasts are relayed

  /** What an act tells a node's table. */
  function Seen(c: Config, n: Net, a: Act, me: Nwk): seq<Op>
    requires Possible(n, a)
  {
    if a.me != me then []
    else match a
      case Originate(_, now, sequence, _, _, audience) => [Sent(Key(me, sequence), audience, now)]
      case Hear(_, now, i, audience) =>
        if Waiting(c, now) then [] else [Heard(n.air[i].key, n.air[i].sender, audience, now)]
  }

  function History(c: Config, start: Net, acts: seq<Act>, me: Nwk): seq<Op> {
    if acts == [] then []
    else
      var front, a := acts[..|acts| - 1], acts[|acts| - 1];
      var n := Run(c, start, front);
      History(c, start, front, me) + if n.Some? && Possible(n.value, a) then Seen(c, n.value, a, me) else []
  }

  /** No node knows a broadcast. */
  predicate Silent(start: Net) {
    forall x :: x in start.nodes ==> start.nodes[x].table == map[]
  }

  lemma StepFollows(c: Config, n: Net, a: Act, me: Nwk, ops: seq<Op>)
    requires Possible(n, a) && me in n.nodes && n.nodes[me].table == TableAfter(ops, c.delivery)
    ensures Step(c, n, a).nodes[me].table == TableAfter(ops + Seen(c, n, a, me), c.delivery)
  {
    var seen := Seen(c, n, a, me);
    if seen == [] {
      assert ops + seen == ops;
    } else {
      TableAfterOne(ops, seen[0], c.delivery);
    }
  }

  lemma {:induction false} RunFollows(c: Config, start: Net, acts: seq<Act>, me: Nwk)
    requires Silent(start) && Run(c, start, acts).Some? && me in start.nodes
    ensures var n := Run(c, start, acts).value;
      me in n.nodes && n.nodes[me].table == TableAfter(History(c, start, acts, me), c.delivery)
  {
    if acts != [] {
      var front, a := acts[..|acts| - 1], acts[|acts| - 1];
      RunFollows(c, start, front, me);
      StepFollows(c, Run(c, start, front).value, a, me, History(c, start, front, me));
    }
  }

  /** The node heard another node's data with radius left, after the startup wait, and neither
      sent nor heard that broadcast within the delivery time. */
  predicate Relays(c: Config, ops: seq<Op>, me: Nwk, copy: Copy, now: Instant) {
    && copy.data && copy.key.source != me && copy.radius >= 2
    && (c.skipStartupWait || After(0, c.delivery) <= now)
    && var began := Began(ops, copy.key, c.delivery);
       began.Some? ==> After(ops[began.value].now, c.delivery) <= now
  }

  function Relayed(c: Config, ops: seq<Op>, me: Nwk, copy: Copy, i: nat, now: Instant): seq<Copy> {
    if Relays(c, ops, me, copy, now)
    then [Copy(copy.key, copy.radius - 1, true, me, now, copy.hops + 1, Some(i))] else []
  }

  lemma HearingRelaysIff(c: Config, n: Net, a: Act, ops: seq<Op>)
    requires Possible(n, a) && a.Hear? && n.nodes[a.me].table == TableAfter(ops, c.delivery)
    ensures Step(c, n, a).air == n.air + Relayed(c, ops, a.me, n.air[a.copy], a.copy, a.now)
  {
    DuplicateIff(ops, n.air[a.copy].key, a.now, c.delivery);
  }

  /** After any run from silence, a node that hears a copy schedules a relay exactly when its
      own history says so, and the relay has one less to its radius. */
  lemma RelaysIff(c: Config, start: Net, acts: seq<Act>, a: Act)
    requires Silent(start) && Run(c, start, acts).Some? && Possible(Run(c, start, acts).value, a) && a.Hear?
    requires a.me in start.nodes
    ensures var n := Run(c, start, acts).value;
      Step(c, n, a).air
      == n.air + Relayed(c, History(c, start, acts, a.me), a.me, n.air[a.copy], a.copy, a.now)
  {
    RunFollows(c, start, acts, a.me);
    HearingRelaysIff(c, Run(c, start, acts).value, a, History(c, start, acts, a.me));
  }

  function Originations(acts: seq<Act>): seq<Copy> {
    if acts == [] then []
    else
      var a := acts[|acts| - 1];
      Originations(acts[..|acts| - 1])
      + if a.Originate? then [Copy(Key(a.me, a.sequence), a.radius, a.data, a.me, a.now, 0, None)] else []
  }

  function Originals(air: seq<Copy>): seq<Copy> {
    if air == [] then []
    else Originals(air[..|air| - 1]) + if air[|air| - 1].parent.None? then [air[|air| - 1]] else []
  }

  /** In every run the originals on the air are exactly the broadcasts originated, in order and
      with the radius they were given. */
  lemma {:induction false} OriginationsAreAired(c: Config, start: Net, acts: seq<Act>)
    requires start.air == [] && Run(c, start, acts).Some?
    ensures Originals(Run(c, start, acts).value.air) == Originations(acts)
  {
    if acts != [] {
      var n, a := Run(c, start, acts[..|acts| - 1]).value, acts[|acts| - 1];
      OriginationsAreAired(c, start, acts[..|acts| - 1]);
      var air := Step(c, n, a).air;
      assert |air| > |n.air| ==> air[..|n.air|] == n.air && |air| == |n.air| + 1;
    }
  }

  // ---------------------------------------------------------------- how many relays

  /** The relays of a broadcast that fall in a window on their senders' clocks. */
  function RelaysWithin(air: seq<Copy>, k: Key, from: Instant, until: Instant): set<nat> {
    set i: nat | i < |air| && air[i].parent.Some? && air[i].key == k && from <= air[i].at < until
  }

  lemma {:induction false} InjectionBounds(s: set<nat>, f: nat -> Nwk, into: set<Nwk>)
    requires forall i :: i in s ==> f(i) in into
    requires forall i, j :: i in s && j in s && f(i) == f(j) ==> i == j
    ensures |s| <= |into|
    decreases |s|
  {
    if s != {} {
      var i :| i in s;
      InjectionBounds(s - {i}, f, into - {f(i)});
    }
  }

  /** In any window no longer than the delivery time a broadcast is relayed fewer times than
      the mesh has nodes, counting the originator among them. */
  lemma RelaysAreFew(c: Config, start: Net, acts: seq<Act>, k: Key, from: Instant)
    requires start.air == [] && Run(c, start, acts).Some?
    ensures var air := Run(c, start, acts).value.air;
      |RelaysWithin(air, k, from, After(from, c.delivery))| <= |start.nodes.Keys - {k.source}|
  {
    FloodSafety(c, start, acts);
    var air := Run(c, start, acts).value.air;
    var s := RelaysWithin(air, k, from, After(from, c.delivery));
    var f: nat -> Nwk := (i: nat) => if i < |air| then air[i].sender else 0;
    forall i | i in s ensures f(i) in start.nodes.Keys - {k.source} {
      assert Descends(air, i);
    }
    forall i, j | i in s && j in s && f(i) == f(j) ensures i == j {
      OneInWindow(c, air, k, from, i, j);
      OneInWindow(c, air, k, from, j, i);
    }
    InjectionBounds(s, f, start.nodes.Keys - {k.source});
  }

  lemma OneInWindow(c: Config, air: seq<Copy>, k: Key, from: Instant, i: nat, j: nat)
    requires Spaced(c, air) && i < |air| && j < |air|
    requires i in RelaysWithin(air, k, from, After(from, c.delivery))
    requires j in RelaysWithin(air, k, from, After(from, c.delivery)) && air[i].sender == air[j].sender
    ensures !(i < j)
  {
    if i < j {
      assert RelayOf(air[i], k, air[i].sender) && RelayOf(air[j], k, air[i].sender);
      AfterIsMonotone(from, air[i].at, c.delivery);
    }
  }
}
