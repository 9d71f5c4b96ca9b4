/** Unicast forwarding by source routes (section 3.6.4.3 of the Zigbee specification): how the
    originator picks a next hop and embeds a relay list, how each relay follows it, and how
    the route records that fill the list are collected and stored. */
module SourceRoutes {
  import opened Prelude

  type Nwk = u16

  datatype SourceRoute = SourceRoute(index: u8, relays: seq<Nwk>)

  /** Of the payload only a route record matters: relays extend it in transit. */
  datatype Payload = RouteRecord(relays: seq<Nwk>) | MalformedRouteRecord | Other

  datatype Frame = Frame(source: Nwk, destination: Nwk, radius: u8, suppressDiscovery: bool,
                         route: Option<SourceRoute>, payload: Payload)

  /** What one node's tables say of a destination: whether it is an end device child or any
      neighbour, and the next hop of an active route. */
  datatype Tables = Tables(child: Nwk -> bool, neighbor: Nwk -> bool, nextHop: Nwk -> Option<Nwk>)

  // ---------------------------------------------------------------- originating

  datatype HostRoute = Via(next: Nwk) | Along(relays: seq<Nwk>)

  datatype Directive = StackDecides | Hint(route: HostRoute) | Force(route: HostRoute)

  datatype SendMode = Direct | Routed(directive: Directive)

  datatype Policy = Policy(isConcentrator: bool, forceDiscovery: bool, maxSourceRoute: u8)

  /** `Panic` is the source's `unwrap` of an empty list. `Overflow` is its byte-wide length
      reaching zero: a build with overflow checks stops there, one without goes on to the
      next hop with the index wrapped to 255. */
  datatype NextHop = Resolved(next: Nwk) | NeedDiscovery | Discard | Panic | Overflow(next: Nwk)

  function Embed(f: Frame, relays: seq<Nwk>): (NextHop, Frame) {
    if relays == [] then (Panic, f)
    else
      var last, low := relays[|relays| - 1], |relays| % 256;
      var index: u8 := if low == 0 then 255 else low - 1;
      (if low == 0 then Overflow(last) else Resolved(last),
       f.(suppressDiscovery := true, route := Some(SourceRoute(index, relays))))
  }

  /** The index names the last relay exactly for lists of up to 256. */
  lemma IndexIsLastIff(f: Frame, relays: seq<Nwk>)
    requires relays != []
    ensures var route := Embed(f, relays).1.route;
      route.Some? && route.value.relays == relays && (route.value.index == |relays| - 1 <==> |relays| <= 256)
  {
  }

  function ApplyHostRoute(f: Frame, r: HostRoute): (NextHop, Frame) {
    match r
    case Via(n) => (Resolved(n), f)
    case Along(relays) => Embed(f, relays)
  }

  /** A stored route record wins over the routing table; one without relays means direct
      transmission, and one that is too long is passed over. */
  function RouteTo(records: map<Nwk, seq<Nwk>>, t: Tables, d: Nwk, max: u8): Option<HostRoute> {
    if d in records && records[d] == [] then Some(Via(d))
    else if d in records && |records[d]| < max then Some(Along(records[d]))
    else if t.nextHop(d).Some? then Some(Via(t.nextHop(d).value))
    else None
  }

  /** The route the stack knows on its own, before any hint. */
  function KnownRoute(records: map<Nwk, seq<Nwk>>, t: Tables, d: Nwk, p: Policy): Option<HostRoute> {
    if t.child(d) then Some(Via(d))
    else if p.forceDiscovery then None
    else if p.isConcentrator && RouteTo(records, t, d, p.maxSourceRoute).Some? then
      RouteTo(records, t, d, p.maxSourceRoute)
    else if t.nextHop(d).Some? then Some(Via(t.nextHop(d).value))
    else None
  }

  function Resolve(records: map<Nwk, seq<Nwk>>, t: Tables, f: Frame, mode: SendMode, p: Policy): (NextHop, Frame) {
    var d := f.destination;
    if mode.Direct? then (Resolved(d), f)
    else if mode.directive.Force? then ApplyHostRoute(f, mode.directive.route)
    else if t.child(d) then (Resolved(d), f)
    else
      var stored := if p.isConcentrator && !p.forceDiscovery then RouteTo(records, t, d, p.maxSourceRoute) else None;
      if stored.Some? then ApplyHostRoute(f, stored.value)
      else if !p.forceDiscovery && t.nextHop(d).Some? then (Resolved(t.nextHop(d).value), f)
      else if mode.directive.Hint? then ApplyHostRoute(f, mode.directive.route)
      else (if f.suppressDiscovery then Discard else NeedDiscovery, f)
  }

  /** Which route is taken: a forced one, then what the stack knows, then a hint. */
  function Chosen(records: map<Nwk, seq<Nwk>>, t: Tables, d: Nwk, mode: SendMode, p: Policy): Option<HostRoute> {
    if mode.Direct? then Some(Via(d))
    else if mode.directive.Force? then Some(mode.directive.route)
    else if KnownRoute(records, t, d, p).Some? then KnownRoute(records, t, d, p)
    else if mode.directive.Hint? then Some(mode.directive.route)
    else None
  }

  /** The chosen route is applied; without one the frame is held for discovery, or discarded
      if it forbids that. The header changes only for a source route. An empty one panics, and
      one whose length is a multiple of 256 overflows. */
  lemma RoutePrecedence(records: map<Nwk, seq<Nwk>>, t: Tables, f: Frame, mode: SendMode, p: Policy)
    ensures var (hop, g) := Resolve(records, t, f, mode, p);
      var route := Chosen(records, t, f.destination, mode, p);
      && (route.None? <==> hop.NeedDiscovery? || hop.Discard?)
      && (hop.Discard? ==> f.suppressDiscovery) && (hop.NeedDiscovery? ==> !f.suppressDiscovery)
      && (hop.Panic? <==> route == Some(Along([])))
      && (hop.Overflow? <==> route.Some? && route.value.Along? && route.value.relays != []
                             && |route.value.relays| % 256 == 0)
      && (route.Some? && route.value.Via? ==> hop == Resolved(route.value.next))
      && (route.Some? && route.value.Along? ==> (hop, g) == Embed(f, route.value.relays))
      && (route.None? || route.value.Via? || hop.Panic? ==> g == f)
  {
  }

  /** What the stack decides on its own, in order: an end device child is addressed directly;
      under forced discovery nothing else is known; a concentrator uses a route record that is
      shorter than the limit, directly when it lists no relay; then the routing table. */
  lemma StackDecidesOn(records: map<Nwk, seq<Nwk>>, t: Tables, f: Frame, p: Policy)
    ensures var d := f.destination;
      var unknown := (if f.suppressDiscovery then Discard else NeedDiscovery, f);
      var table := if t.nextHop(d).Some? then (Resolved(t.nextHop(d).value), f) else unknown;
      Resolve(records, t, f, Routed(StackDecides), p)
      == if t.child(d) then (Resolved(d), f)
         else if p.forceDiscovery then unknown
         else if !p.isConcentrator || d !in records then table
         else if records[d] == [] then (Resolved(d), f)
         else if |records[d]| < p.maxSourceRoute then Embed(f, records[d])
         else table
  {
  }

  /** What the host interface lets through: a byte-counted, nonempty list. */
  predicate HostAllows(r: HostRoute) {
    r.Along? ==> 1 <= |r.relays| <= 255
  }

  predicate Allowed(mode: SendMode) {
    mode.Routed? && !mode.directive.StackDecides? ==> HostAllows(mode.directive.route)
  }

  /** So nothing that the stack stores or the host interface lets through panics or overflows, */
  lemma AllowedNeverPanics(records: map<Nwk, seq<Nwk>>, t: Tables, f: Frame, mode: SendMode, p: Policy)
    requires Allowed(mode)
    ensures var hop := Resolve(records, t, f, mode, p).0; !hop.Panic? && !hop.Overflow?
  {
    RoutePrecedence(records, t, f, mode, p);
    var d := f.destination;
    if d in records && 0 < |records[d]| < p.maxSourceRoute {
      assert |records[d]| % 256 == |records[d]|;
    }
  }

  /** while an empty list from a caller within the stack does. */
  lemma EmptyRoutePanics(records: map<Nwk, seq<Nwk>>, t: Tables, f: Frame, p: Policy)
    ensures Resolve(records, t, f, Routed(Force(Along([]))), p) == (Panic, f)
  {
  }

  // ---------------------------------------------------------------- relaying

  /** What a relay does with a frame for another node: the next hop and the frame as sent
      on, or nothing when it is dropped. */
  function Relay(me: Nwk, t: Tables, f: Frame, maxSourceRoute: u8): Option<(Nwk, Frame)> {
    if f.radius <= 1 then None
    else
      var payload := Extended(me, f.payload, maxSourceRoute);
      if payload.None? then None
      else
        var g := f.(radius := f.radius - 1, payload := payload.value);
        if f.route.Some? then
          var index, relays := f.route.value.index, f.route.value.relays;
          if index > 0 && (index >= |relays| || relays[index] != me) then None
          else
            var next := if index == 0 then f.destination else relays[index - 1];
            var h := if index == 0 then g else g.(route := Some(SourceRoute(index - 1, relays)));
            Some((if t.child(f.destination) then f.destination else next, h))
        else if t.neighbor(f.destination) then Some((f.destination, g))
        else if t.nextHop(f.destination).Some? then Some((t.nextHop(f.destination).value, g))
        else None
  }

  /** A transiting route record gains the relay's address, while there is room. */
  function Extended(me: Nwk, p: Payload, maxSourceRoute: u8): Option<Payload> {
    match p
    case RouteRecord(relays) => if |relays| >= maxSourceRoute then None else Some(RouteRecord(relays + [me]))
    case MalformedRouteRecord => None
    case Other => Some(Other)
  }

  /** The mesh: every node has its own tables. */
  type Mesh = Nwk -> Tables

  /** The nodes a frame visits from `at` on; it stops at its destination or where it is
      dropped. */
  function Journey(mesh: Mesh, at: Nwk, f: Frame, max: u8): seq<Nwk>
    decreases f.radius
  {
    if at == f.destination then [at]
    else
      var r := Relay(at, mesh(at), f, max);
      if r.None? then [at] else [at] + Journey(mesh, r.value.0, r.value.1, max)
  }

  /** How far a frame carries: its radius, cut short by the room left in a route record, which
      grows at every relay. */
  function Range(f: Frame, max: u8): nat {
    var room: nat := match f.payload
      case Other => f.radius
      case MalformedRouteRecord => 0
      case RouteRecord(relays) => if |relays| < max then max - |relays| else 0;
    if f.radius < room + 1 then f.radius else room + 1
  }

  /** A source-routed frame at a node its index does not name; index 0 is not checked. */
  predicate Stray(at: Nwk, f: Frame) {
    && f.route.Some? && f.route.value.index > 0
    && (f.route.value.index >= |f.route.value.relays| || f.route.value.relays[f.route.value.index] != at)
  }

  /** A frame short of its destination goes no further exactly when its range is used up, when
      its relay list does not name the node, or, without a list, when the node neither has the
      destination as a neighbour nor a route to it. */
  lemma StopsIff(mesh: Mesh, at: Nwk, f: Frame, max: u8)
    requires at != f.destination
    ensures Journey(mesh, at, f, max) == [at]
            <==> || Range(f, max) <= 1
                 || Stray(at, f)
                 || (f.route.None? && !mesh(at).neighbor(f.destination) && mesh(at).nextHop(f.destination).None?)
  {
    var r := Relay(at, mesh(at), f, max);
    if r.Some? {
      assert |Journey(mesh, r.value.0, r.value.1, max)| > 0;
    }
  }

  /** Without a relay list a neighbour is reached directly, and anything else over the table. */
  lemma UnlistedHop(mesh: Mesh, at: Nwk, f: Frame, max: u8)
    requires at != f.destination && f.route.None? && Range(f, max) > 1
    ensures mesh(at).neighbor(f.destination) ==> Journey(mesh, at, f, max) == [at, f.destination]
    ensures !mesh(at).neighbor(f.destination) && mesh(at).nextHop(f.destination).Some? ==>
      |Journey(mesh, at, f, max)| > 1 && Journey(mesh, at, f, max)[1] == mesh(at).nextHop(f.destination).value
  {
  }

  // ---------------------------------------------------------------- traversal

  /** The path a relay list names from its entry `k` down: each relay in turn, then the
      destination, which a relay that parents it reaches at once. */
  function PathFrom(mesh: Mesh, relays: seq<Nwk>, k: nat, d: Nwk): seq<Nwk>
    requires k < |relays|
  {
    if k == 0 || mesh(relays[k]).child(d) then [relays[k], d]
    else [relays[k]] + PathFrom(mesh, relays, k - 1, d)
  }

  function Reversed<T>(s: seq<T>): seq<T> {
    if s == [] then [] else [s[|s| - 1]] + Reversed(s[..|s| - 1])
  }

  function Prefix(s: seq<Nwk>, n: nat): seq<Nwk> {
    if n >= |s| then s else s[..n]
  }

  lemma PrefixUnfolds(x: Nwk, s: seq<Nwk>, n: nat)
    requires n > 0
    ensures Prefix([x] + s, n) == [x] + Prefix(s, n - 1)
  {
  }

  /** A source-routed frame at the relay its index names. */
  predicate OnRoute(f: Frame) {
    && f.route.Some? && f.destination !in f.route.value.relays
    && f.route.value.index < |f.route.value.relays|
  }

  function Here(f: Frame): Nwk
    requires OnRoute(f)
  {
    f.route.value.relays[f.route.value.index]
  }

  /** The frame as the relay sends it on. */
  function Onward(f: Frame, max: u8): Frame
    requires OnRoute(f) && Range(f, max) > 1 && f.route.value.index > 0
  {
    f.(radius := f.radius - 1, payload := Extended(Here(f), f.payload, max).value,
       route := Some(SourceRoute(f.route.value.index - 1, f.route.value.relays)))
  }

  lemma RangeShrinks(f: Frame, max: u8)
    requires OnRoute(f) && Range(f, max) > 1 && f.route.value.index > 0
    ensures OnRoute(Onward(f, max)) && Range(Onward(f, max), max) == Range(f, max) - 1
  {
  }

  lemma JourneyEnds(mesh: Mesh, f: Frame, max: u8)
    requires OnRoute(f)
    ensures Range(f, max) <= 1 ==> Journey(mesh, Here(f), f, max) == [Here(f)]
    ensures Range(f, max) > 1 && (f.route.value.index == 0 || mesh(Here(f)).child(f.destination))
            ==> Journey(mesh, Here(f), f, max) == [Here(f), f.destination]
  {
  }

  lemma JourneyGoesOn(mesh: Mesh, f: Frame, max: u8)
    requires OnRoute(f) && Range(f, max) > 1 && f.route.value.index > 0 && !mesh(Here(f)).child(f.destination)
    ensures OnRoute(Onward(f, max))
    ensures Journey(mesh, Here(f), f, max)
         == [Here(f)] + Journey(mesh, Here(Onward(f, max)), Onward(f, max), max)
  {
    assert Here(f) in f.route.value.relays;
    assert Relay(Here(f), mesh(Here(f)), f, max) == Some((Here(Onward(f, max)), Onward(f, max)));
  }

  /** What a frame with this range visits of the path from entry `k` down. */
  function VisitedFrom(mesh: Mesh, relays: seq<Nwk>, k: nat, d: Nwk, radius: nat): seq<Nwk>
    requires k < |relays|
  {
    if radius <= 1 then [relays[k]]
    else if k == 0 || mesh(relays[k]).child(d) then [relays[k], d]
    else [relays[k]] + VisitedFrom(mesh, relays, k - 1, d, radius - 1)
  }

  lemma {:induction false} FollowsRoute(mesh: Mesh, f: Frame, max: u8)
    requires OnRoute(f)
    ensures Journey(mesh, Here(f), f, max)
         == VisitedFrom(mesh, f.route.value.relays, f.route.value.index, f.destination, Range(f, max))
    decreases f.route.value.index
  {
    JourneyEnds(mesh, f, max);
    if Range(f, max) > 1 && f.route.value.index > 0 && !mesh(Here(f)).child(f.destination) {
      JourneyGoesOn(mesh, f, max);
      RangeShrinks(f, max);
      FollowsRoute(mesh, Onward(f, max), max);
    }
  }

  lemma {:induction false} VisitedIsPrefix(mesh: Mesh, relays: seq<Nwk>, k: nat, d: Nwk, radius: nat)
    requires k < |relays|
    ensures VisitedFrom(mesh, relays, k, d, radius)
         == Prefix(PathFrom(mesh, relays, k, d), if radius <= 1 then 1 else radius)
  {
    if radius > 1 && k > 0 && !mesh(relays[k]).child(d) {
      VisitedIsPrefix(mesh, relays, k - 1, d, radius - 1);
      PrefixUnfolds(relays[k], PathFrom(mesh, relays, k - 1, d), radius);
    }
  }

  predicate NoShortcut(mesh: Mesh, relays: seq<Nwk>, d: Nwk) {
    forall k :: 0 < k < |relays| ==> !mesh(relays[k]).child(d)
  }

  /** Without a shortcut the path is the reversed list and then the destination. */
  lemma {:induction false} PathIsReversed(mesh: Mesh, relays: seq<Nwk>, k: nat, d: Nwk)
    requires k < |relays|
    requires forall i :: 0 < i <= k ==> !mesh(relays[i]).child(d)
    ensures PathFrom(mesh, relays, k, d) == Reversed(relays[..k + 1]) + [d]
  {
    assert relays[..k + 1][..k] == relays[..k];
    if k > 0 {
      PathIsReversed(mesh, relays, k - 1, d);
    } else {
      assert Reversed(relays[..0]) == [];
    }
  }

  /** With one, it is a prefix of that list, and then the destination. */
  lemma {:induction false} PathIsShortened(mesh: Mesh, relays: seq<Nwk>, k: nat, d: Nwk) returns (n: nat)
    requires k < |relays|
    ensures 1 <= n <= k + 1 && |Reversed(relays[..k + 1])| == k + 1
    ensures PathFrom(mesh, relays, k, d) == Reversed(relays[..k + 1])[..n] + [d]
    ensures n <= k ==> mesh(Reversed(relays[..k + 1])[n - 1]).child(d)
  {
    assert relays[..k + 1][..k] == relays[..k];
    ReversedLength(relays[..k]);
    if k == 0 || mesh(relays[k]).child(d) {
      n := 1;
    } else {
      var m := PathIsShortened(mesh, relays, k - 1, d);
      n := m + 1;
      assert Reversed(relays[..k + 1])[..n] == [relays[k]] + Reversed(relays[..k])[..m];
    }
  }

  lemma {:induction false} ReversedLength<T>(s: seq<T>)
    ensures |Reversed(s)| == |s|
  {
    if s != [] {
      ReversedLength(s[..|s| - 1]);
    }
  }

  /** Embedding a list that a byte can count names its last entry. */
  lemma EmbedFits(f: Frame, relays: seq<Nwk>)
    requires 1 <= |relays| <= 255
    ensures Embed(f, relays) == (Resolved(relays[|relays| - 1]), Embedded(f, relays))
  {
  }

  function Embedded(f: Frame, relays: seq<Nwk>): Frame
    requires 1 <= |relays| <= 255
  {
    f.(suppressDiscovery := true, route := Some(SourceRoute(|relays| - 1, relays)))
  }

  /** The nodes visited by a frame that is sent along a relay list. */
  function Traversed(mesh: Mesh, f: Frame, relays: seq<Nwk>, max: u8): seq<Nwk> {
    var (hop, g) := Embed(f, relays);
    if hop.Resolved? then Journey(mesh, hop.next, g, max) else []
  }

  lemma TraversedIsJourney(mesh: Mesh, f: Frame, relays: seq<Nwk>, max: u8)
    requires 1 <= |relays| <= 255
    ensures Traversed(mesh, f, relays, max) == Journey(mesh, relays[|relays| - 1], Embedded(f, relays), max)
  {
    EmbedFits(f, relays);
  }

  lemma EmbeddedIsOnRoute(f: Frame, relays: seq<Nwk>, max: u8)
    requires 1 <= |relays| <= 255 && f.destination !in relays
    ensures var g := Embedded(f, relays);
      OnRoute(g) && Here(g) == relays[|relays| - 1] && Range(g, max) == Range(f, max)
  {
  }

  lemma TraversedIsVisited(mesh: Mesh, f: Frame, relays: seq<Nwk>, max: u8)
    requires 1 <= |relays| <= 255 && f.destination !in relays
    ensures Traversed(mesh, f, relays, max)
         == VisitedFrom(mesh, relays, |relays| - 1, f.destination, Range(f, max))
  {
    TraversedIsJourney(mesh, f, relays, max);
    EmbeddedFollows(mesh, f, relays, max);
  }

  lemma EmbeddedFollows(mesh: Mesh, f: Frame, relays: seq<Nwk>, max: u8)
    requires 1 <= |relays| <= 255 && f.destination !in relays
    ensures Journey(mesh, relays[|relays| - 1], Embedded(f, relays), max)
         == VisitedFrom(mesh, relays, |relays| - 1, f.destination, Range(f, max))
  {
    EmbeddedIsOnRoute(f, relays, max);
    FollowsRoute(mesh, Embedded(f, relays), max);
  }

  /** Traversal: a frame originated along a relay list that does not name its destination
      visits the relays in reverse order and then the destination, or cuts across at the
      first relay that parents it, as far as it carries. */
  lemma SourceRouteTraversal(mesh: Mesh, f: Frame, relays: seq<Nwk>, max: u8) returns (n: nat)
    requires 1 <= |relays| <= 255 && f.destination !in relays
    ensures 1 <= n <= |relays| && |Reversed(relays)| == |relays|
    ensures n < |relays| ==> mesh(Reversed(relays)[n - 1]).child(f.destination)
    ensures NoShortcut(mesh, relays, f.destination) ==> n == |relays|
    ensures Traversed(mesh, f, relays, max)
         == Prefix(Reversed(relays)[..n] + [f.destination], if Range(f, max) <= 1 then 1 else Range(f, max))
  {
    var k, d := |relays| - 1, f.destination;
    TraversedIsVisited(mesh, f, relays, max);
    VisitedIsPrefix(mesh, relays, k, d, Range(f, max));
    n := PathIsShortened(mesh, relays, k, d);
    assert relays[..k + 1] == relays;
    if NoShortcut(mesh, relays, d) {
      PathIsReversed(mesh, relays, k, d);
      assert |PathFrom(mesh, relays, k, d)| == |relays| + 1;
    }
  }

  /** Without a shortcut it arrives exactly when its radius exceeds the number of relays and,
      should it be a route record, there is room in it for them. */
  lemma ArrivesIff(mesh: Mesh, f: Frame, relays: seq<Nwk>, max: u8)
    requires 1 <= |relays| <= 255 && f.destination !in relays
    requires NoShortcut(mesh, relays, f.destination)
    ensures f.destination in Traversed(mesh, f, relays, max)
            <==> f.radius > |relays| && match f.payload
                                        case Other => true
                                        case MalformedRouteRecord => false
                                        case RouteRecord(listed) => |listed| + |relays| <= max
  {
    var n := SourceRouteTraversal(mesh, f, relays, max);
    ReversedElements(relays, f.destination);
    var r := Reversed(relays);
    assert r[..n] == r;
    if Range(f, max) > |relays| {
      assert (r + [f.destination])[|relays|] == f.destination;
    } else {
      assert forall i :: 0 <= i < |r| ==> r[i] != f.destination;
    }
  }

  lemma {:induction false} ReversedElements<T>(s: seq<T>, x: T)
    ensures x in Reversed(s) <==> x in s
  {
    if s != [] {
      ReversedElements(s[..|s| - 1], x);
      assert s == s[..|s| - 1] + [s[|s| - 1]];
    }
  }

  // ---------------------------------------------------------------- route records

  /** The table after the records of the relays before `n` were stored: each is reached over
      the relays after it. */
  function StoredUpTo(records: map<Nwk, seq<Nwk>>, relays: seq<Nwk>, n: nat): map<Nwk, seq<Nwk>>
    requires n <= |relays|
  {
    if n == 0 then records else StoredUpTo(records, relays, n - 1)[relays[n - 1] := relays[n..]]
  }

  function Stored(records: map<Nwk, seq<Nwk>>, source: Nwk, relays: seq<Nwk>): map<Nwk, seq<Nwk>> {
    StoredUpTo(records, relays, |relays|)[source := relays]
  }

  /** The last place of a node among the first `n` relays. */
  function LastPlace(relays: seq<Nwk>, n: nat, x: Nwk): (r: Option<nat>)
    requires n <= |relays|
    ensures r.Some? ==> r.value < n && relays[r.value] == x && forall i :: r.value < i < n ==> relays[i] != x
    ensures r.None? ==> forall i :: 0 <= i < n ==> relays[i] != x
  {
    if n == 0 then None else if relays[n - 1] == x then Some(n - 1) else LastPlace(relays, n - 1, x)
  }

  /** Every node of a stored path is reached over what follows its last place on it; records
      of other nodes stay. */
  lemma {:induction false} StoredSuffix(records: map<Nwk, seq<Nwk>>, relays: seq<Nwk>, n: nat, x: Nwk)
    requires n <= |relays|
    ensures var t, i := StoredUpTo(records, relays, n), LastPlace(relays, n, x);
      if i.Some? then x in t && t[x] == relays[i.value + 1..]
      else (x in t <==> x in records) && (x in t ==> t[x] == records[x])
  {
    if n > 0 {
      StoredSuffix(records, relays, n - 1, x);
    }
  }

  /** The loop of the source: relays in order, then the last one, then the source. */
  method StoreRouteRecord(records: map<Nwk, seq<Nwk>>, source: Nwk, relays: seq<Nwk>)
    returns (r: map<Nwk, seq<Nwk>>, changed: bool)
    ensures r == Stored(records, source, relays)
    ensures changed <==> !(source in StoredUpTo(records, relays, |relays|)
                           && StoredUpTo(records, relays, |relays|)[source] == relays)
  {
    r := records;
    var i := 1;
    while i < |relays|
      invariant 1 <= i && (relays != [] ==> i <= |relays| && r == StoredUpTo(records, relays, i - 1))
      invariant relays == [] ==> r == records
    {
      r := r[relays[i - 1] := relays[i..]];
      i := i + 1;
    }
    if relays != [] {
      assert relays[|relays|..] == [];
      r := r[relays[|relays| - 1] := []];
    }
    changed := !(source in r && r[source] == relays);
    r := r[source := relays];
  }

  /** A node hands a frame to the next one of a path; the last one reaches its neighbour. */
  predicate HandsOn(mesh: Mesh, path: seq<Nwk>, to: Nwk, i: nat)
    requires i < |path|
  {
    && path[i] != to
    && (mesh(path[i]).neighbor(to) <==> i + 1 == |path|)
    && (i + 1 < |path| ==> mesh(path[i]).nextHop(to) == Some(path[i + 1]))
  }

  predicate Walks(mesh: Mesh, path: seq<Nwk>, to: Nwk) {
    forall i :: 0 <= i < |path| ==> HandsOn(mesh, path, to, i)
  }

  function Collected(mesh: Mesh, at: Nwk, f: Frame, max: u8): Option<seq<Nwk>>
    decreases f.radius
  {
    if at == f.destination then if f.payload.RouteRecord? then Some(f.payload.relays) else None
    else
      var r := Relay(at, mesh(at), f, max);
      if r.None? then None else Collected(mesh, r.value.0, r.value.1, max)
  }

  /** A route record that walks a path arrives listing it, if there is room and radius. */
  lemma {:induction false} RecordCollectsPath(mesh: Mesh, path: seq<Nwk>, f: Frame, max: u8)
    requires path != [] && Walks(mesh, path, f.destination) && f.route.None? && f.payload.RouteRecord?
    requires f.radius > |path| && |f.payload.relays| + |path| <= max
    ensures Collected(mesh, path[0], f, max) == Some(f.payload.relays + path)
    decreases |path|
  {
    assert HandsOn(mesh, path, f.destination, 0);
    var r := Relay(path[0], mesh(path[0]), f, max);
    var g := r.value.1;
    if |path| == 1 {
      assert r.value.0 == f.destination;
      assert f.payload.relays + path == g.payload.relays;
    } else {
      assert r.value.0 == path[1];
      var rest := path[1..];
      forall i | 0 <= i < |rest| ensures HandsOn(mesh, rest, f.destination, i) {
        assert HandsOn(mesh, path, f.destination, i + 1);
      }
      RecordCollectsPath(mesh, rest, g, max);
      assert f.payload.relays + path == g.payload.relays + rest;
    }
  }

  /** A concentrator sends along the record it stored. */
  lemma RecordIsUsed(records: map<Nwk, seq<Nwk>>, t: Tables, f: Frame, path: seq<Nwk>, p: Policy)
    requires path != [] && |path| < p.maxSourceRoute && p.isConcentrator && !p.forceDiscovery && !t.child(f.destination)
    ensures Resolve(Stored(records, f.destination, path), t, f, Routed(StackDecides), p) == Embed(f, path)
  {
  }

  /** Round trip: once a device's route record has walked a path to the concentrator and was
      stored, a frame back to the device is sent along that path in reverse, and arrives. */
  lemma RecordedRouteRetraces(mesh: Mesh, records: map<Nwk, seq<Nwk>>, device: Nwk, home: Nwk,
                              path: seq<Nwk>, record: Frame, reply: Frame, p: Policy)
    requires path != [] && |path| < p.maxSourceRoute && Walks(mesh, path, home)
    requires record.source == device && record.destination == home && record.route.None?
    requires record.payload == RouteRecord([]) && record.radius > |path|
    requires p.isConcentrator && !p.forceDiscovery
    requires reply.destination == device && Range(reply, p.maxSourceRoute) > |path|
    requires device !in path && !mesh(home).child(device) && NoShortcut(mesh, path, device)
    ensures var got := Collected(mesh, path[0], record, p.maxSourceRoute);
      got.Some? &&
      var (hop, g) := Resolve(Stored(records, device, got.value), mesh(home), reply, Routed(StackDecides), p);
      (hop, g) == Embed(reply, path) && Traversed(mesh, reply, path, p.maxSourceRoute) == Reversed(path) + [device]
  {
    RecordCollectsPath(mesh, path, record, p.maxSourceRoute);
    assert [] + path == path;
    RecordIsUsed(records, mesh(home), reply, path, p);
    var n := SourceRouteTraversal(mesh, reply, path, p.maxSourceRoute);
    assert Reversed(path)[..n] == Reversed(path);
  }

  // ---------------------------------------------------------------- in place

  /** A frame as the driver holds it, rewritten in place on its way through. */
  class NwkFrame {
    var source: Nwk
    var destination: Nwk
    var radius: u8
    var suppressDiscovery: bool
    var route: Option<SourceRoute>
    var payload: Payload

    function Value(): Frame
      reads this
    {
      Frame(source, destination, radius, suppressDiscovery, route, payload)
    }

    constructor (f: Frame)
      ensures Value() == f
    {
      source, destination, radius, suppressDiscovery := f.source, f.destination, f.radius, f.suppressDiscovery;
      route, payload := f.route, f.payload;
    }

    method ApplySourceRoute(relays: seq<Nwk>) returns (hop: NextHop)
      modifies this`suppressDiscovery, this`route
      ensures (hop, Value()) == Embed(old(Value()), relays)
    {
      if relays == [] {
        return Panic;
      }
      var last, low := relays[|relays| - 1], |relays| % 256;
      suppressDiscovery := true;
      route := Some(SourceRoute(if low == 0 then 255 else low - 1, relays));
      hop := if low == 0 then Overflow(last) else Resolved(last);
    }

    /** A dropped frame is not sent, so what is left in it does not matter. */
    method RelayUnicast(me: Nwk, t: Tables, maxSourceRoute: u8) returns (next: Option<Nwk>)
      modifies this`radius, this`route, this`payload
      ensures var r := Relay(me, t, old(Value()), maxSourceRoute);
        if r.None? then next.None? else next == Some(r.value.0) && Value() == r.value.1
    {
      radius := if radius == 0 then 0 else radius - 1;
      if radius == 0 {
        return None;
      }
      match payload {
        case RouteRecord(relays) =>
          if |relays| >= maxSourceRoute {
            return None;
          }
          payload := RouteRecord(relays + [me]);
        case MalformedRouteRecord => return None;
        case Other =>
      }
      if route.Some? {
        var index, relays := route.value.index, route.value.relays;
        var hop;
        if index == 0 {
          hop := destination;
        } else {
          if index >= |relays| || relays[index] != me {
            return None;
          }
          route := Some(SourceRoute(index - 1, relays));
          hop := relays[index - 1];
        }
        return Some(if t.child(destination) then destination else hop);
      }
      if t.neighbor(destination) {
        return Some(destination);
      }
      next := t.nextHop(destination);
    }
  }
}
