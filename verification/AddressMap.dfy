/** The EUI64-to-network-address map, in which a network address has a single owner. */
module AddressMaps {
  import opened Prelude
  import opened FlatMaps

  /** An IEEE address, in the order its bytes sort in. */
  type Eui64 = nat

  type Nwk = u16

  predicate Before(a: Eui64, b: Eui64) {
    a < b
  }

  ghost predicate SingleOwner(m: map<Eui64, Nwk>) {
    forall a, b :: a in m && b in m && m[a] == m[b] ==> a == b
  }

  ghost predicate OwnedByOther(m: map<Eui64, Nwk>, nwk: Nwk, eui64: Eui64) {
    exists e :: e in m && m[e] == nwk && e != eui64
  }

  /** An address that is in use by us, or by a device other than the given one. */
  ghost predicate Taken(m: map<Eui64, Nwk>, own: Nwk, nwk: Nwk, eui64: Eui64) {
    nwk == own || OwnedByOther(m, nwk, eui64)
  }

  function NwkOf(m: map<Eui64, Nwk>, eui64: Eui64): Option<Nwk> {
    if eui64 in m then Some(m[eui64]) else None
  }

  ghost function OwnerOf(m: map<Eui64, Nwk>, nwk: Nwk): Option<Eui64> {
    if exists e :: e in m && m[e] == nwk then
      var e :| e in m && m[e] == nwk;
      Some(e)
    else None
  }

  datatype Op = Update(eui64: Eui64, nwk: Nwk) | Claim(eui64: Eui64, nwk: Nwk) | Forget(nwk: Nwk)

  /** A mapping learned from a frame clashes with another owner of the address. */
  ghost predicate Conflict(m: map<Eui64, Nwk>, own: Nwk, eui64: Eui64, nwk: Nwk) {
    NwkOf(m, eui64) != Some(nwk) && Taken(m, own, nwk, eui64)
  }

  ghost function WithoutOtherOwners(m: map<Eui64, Nwk>, nwk: Nwk, owner: Eui64): map<Eui64, Nwk> {
    map e | e in m && (m[e] != nwk || e == owner) :: m[e]
  }

  ghost function Apply(m: map<Eui64, Nwk>, own: Nwk, op: Op): map<Eui64, Nwk> {
    match op
    case Update(e, n) => if Conflict(m, own, e, n) then m else m[e := n]
    case Claim(e, n) => WithoutOtherOwners(m, n, e)[e := n]
    case Forget(n) => map e | e in m && m[e] != n :: m[e]
  }

  ghost function ApplyAll(m: map<Eui64, Nwk>, own: Nwk, ops: seq<Op>): map<Eui64, Nwk>
    decreases |ops|
  {
    if ops == [] then m else ApplyAll(Apply(m, own, ops[0]), own, ops[1..])
  }

  class AddressMap {
    const ownAddress: Nwk
    const table: FlatMap<Eui64, Nwk>

    ghost predicate Valid()
      reads this, table
    {
      table.Valid() && table.lt == Before && SingleOwner(table.Contents)
    }

    constructor (ownAddress: Nwk, ownEui64: Eui64)
      ensures Valid() && fresh(table)
      ensures this.ownAddress == ownAddress && table.Contents == map[ownEui64 := ownAddress]
    {
      this.ownAddress := ownAddress;
      table := new FlatMap(Before);
      new;
      var _ := table.Insert(ownEui64, ownAddress);
    }

    method NwkFor(eui64: Eui64) returns (r: Option<Nwk>)
      requires Valid()
      ensures r == NwkOf(table.Contents, eui64)
    {
      r := table.Get(eui64);
    }

    /** The first entry, in key order, that maps to the address. */
    method Eui64For(nwk: Nwk) returns (r: Option<Eui64>)
      requires Valid()
      ensures r == OwnerOf(table.Contents, nwk)
    {
      for i := 0 to |table.entries|
        invariant forall j :: 0 <= j < i ==> table.entries[j].1 != nwk
      {
        if table.entries[i].1 == nwk {
          assert table.entries[i].0 in table.Contents;
          return Some(table.entries[i].0);
        }
      }
      assert forall e :: e in table.Contents ==> e in KeysOf(table.entries);
      r := None;
    }

    method ClaimedByOther(nwk: Nwk, eui64: Eui64) returns (claimed: bool)
      requires Valid()
      ensures claimed == Taken(table.Contents, ownAddress, nwk, eui64)
    {
      if nwk == ownAddress {
        return true;
      }
      for i := 0 to |table.entries|
        invariant forall j :: 0 <= j < i ==> table.entries[j].1 != nwk || table.entries[j].0 == eui64
      {
        if table.entries[i].1 == nwk && table.entries[i].0 != eui64 {
          assert table.entries[i].0 in table.Contents;
          return true;
        }
      }
      assert forall e :: e in table.Contents ==> e in KeysOf(table.entries);
      claimed := false;
    }

    method UpdateMapping(eui64: Eui64, nwk: Nwk) returns (conflict: bool)
      requires Valid()
      modifies table
      ensures Valid()
      ensures conflict == Conflict(old(table.Contents), ownAddress, eui64, nwk)
      ensures table.Contents == Apply(old(table.Contents), ownAddress, Update(eui64, nwk))
    {
      var known := table.Get(eui64);
      if known == Some(nwk) {
        assert table.Contents[eui64 := nwk] == table.Contents;
        return false;
      }
      var taken := ClaimedByOther(nwk, eui64);
      if taken {
        return true;
      }
      UpdateKeepsSingleOwner(table.Contents, ownAddress, eui64, nwk);
      var _ := table.Insert(eui64, nwk);
      conflict := false;
    }

    /** Record an authoritative announcement, evicting every other owner of the address. */
    method ClaimAddress(eui64: Eui64, nwk: Nwk)
      requires Valid()
      modifies table
      ensures Valid()
      ensures table.Contents == Apply(old(table.Contents), ownAddress, Claim(eui64, nwk))
    {
      ghost var before := table.Contents;
      table.Retain((e, n) => if n == nwk && e != eui64 then None else Some(n));
      assert table.Contents == WithoutOtherOwners(before, nwk, eui64);
      ApplyKeepsSingleOwner(before, ownAddress, Claim(eui64, nwk));
      var _ := table.Insert(eui64, nwk);
    }

    method ForgetAddress(nwk: Nwk)
      requires Valid()
      modifies table
      ensures Valid()
      ensures table.Contents == Apply(old(table.Contents), ownAddress, Forget(nwk))
    {
      table.Retain((e, n) => if n == nwk then None else Some(n));
    }

    /** The first usable candidate; `None` when the candidate stream ends, where the source
        panics. `neighbors` are the addresses in the neighbor table. */
    method GenerateUnused(neighbors: set<Nwk>, candidates: seq<Nwk>) returns (r: Option<Nwk>)
      requires Valid()
      ensures r == FirstUsable(table.Contents, ownAddress, neighbors, candidates)
    {
      for i := 0 to |candidates|
        invariant FirstUsable(table.Contents, ownAddress, neighbors, candidates)
                  == FirstUsable(table.Contents, ownAddress, neighbors, candidates[i..])
      {
        var c := candidates[i];
        var inUse := Eui64For(c);
        if c != 0 && c < 0xFFF8 && c != ownAddress && inUse.None? && c !in neighbors {
          return Some(c);
        }
      }
      r := None;
    }

    method Allocate(eui64: Eui64, neighbors: set<Nwk>, candidates: seq<Nwk>) returns (r: Option<Nwk>)
      requires Valid()
      ensures r == Allocation(table.Contents, ownAddress, eui64, neighbors, candidates)
    {
      r := table.Get(eui64);
      if r.None? {
        r := GenerateUnused(neighbors, candidates);
      }
    }
  }

  ghost predicate Usable(m: map<Eui64, Nwk>, own: Nwk, neighbors: set<Nwk>, c: Nwk) {
    0 < c < 0xFFF8 && c != own && OwnerOf(m, c).None? && c !in neighbors
  }

  ghost function FirstUsable(m: map<Eui64, Nwk>, own: Nwk, neighbors: set<Nwk>, candidates: seq<Nwk>): Option<Nwk> {
    if candidates == [] then None
    else if Usable(m, own, neighbors, candidates[0]) then Some(candidates[0])
    else FirstUsable(m, own, neighbors, candidates[1..])
  }

  /** The address a joining device gets: its previous one, or a fresh one. */
  ghost function Allocation(m: map<Eui64, Nwk>, own: Nwk, eui64: Eui64,
                            neighbors: set<Nwk>, candidates: seq<Nwk>): Option<Nwk>
  {
    if eui64 in m then Some(m[eui64]) else FirstUsable(m, own, neighbors, candidates)
  }

  lemma UpdateKeepsSingleOwner(m: map<Eui64, Nwk>, own: Nwk, eui64: Eui64, nwk: Nwk)
    requires SingleOwner(m) && !Conflict(m, own, eui64, nwk)
    ensures SingleOwner(m[eui64 := nwk])
  {
    if NwkOf(m, eui64) == Some(nwk) {
      assert m[eui64 := nwk] == m;
    }
  }

  lemma ApplyKeepsSingleOwner(m: map<Eui64, Nwk>, own: Nwk, op: Op)
    requires SingleOwner(m)
    ensures SingleOwner(Apply(m, own, op))
  {
    if op.Update? && !Conflict(m, own, op.eui64, op.nwk) {
      UpdateKeepsSingleOwner(m, own, op.eui64, op.nwk);
    }
  }

  /** With single owners the two lookups invert each other. */
  lemma LookupsInvert(m: map<Eui64, Nwk>, eui64: Eui64, nwk: Nwk)
    requires SingleOwner(m)
    ensures NwkOf(m, eui64) == Some(nwk) <==> OwnerOf(m, nwk) == Some(eui64)
  {
  }

  /** From the freshly seeded map, no run of operations gives an address two owners, so the
      two lookups stay mutual inverses. */
  lemma {:induction false} RunKeepsSingleOwner(m: map<Eui64, Nwk>, own: Nwk, ops: seq<Op>)
    requires SingleOwner(m)
    ensures SingleOwner(ApplyAll(m, own, ops))
    ensures forall e: Eui64, n: Nwk ::
        NwkOf(ApplyAll(m, own, ops), e) == Some(n) <==> OwnerOf(ApplyAll(m, own, ops), n) == Some(e)
    decreases |ops|
  {
    if ops == [] {
      forall e: Eui64, n: Nwk ensures NwkOf(m, e) == Some(n) <==> OwnerOf(m, n) == Some(e) {
        LookupsInvert(m, e, n);
      }
    } else {
      ApplyKeepsSingleOwner(m, own, ops[0]);
      RunKeepsSingleOwner(Apply(m, own, ops[0]), own, ops[1..]);
    }
  }

  lemma {:induction false} FirstUsableIsUsable(m: map<Eui64, Nwk>, own: Nwk, neighbors: set<Nwk>, candidates: seq<Nwk>)
    ensures var r := FirstUsable(m, own, neighbors, candidates);
      r.Some? ==> r.value in candidates && Usable(m, own, neighbors, r.value)
  {
    if candidates != [] && !Usable(m, own, neighbors, candidates[0]) {
      FirstUsableIsUsable(m, own, neighbors, candidates[1..]);
    }
  }

  /** Outside the assigned range, ours, a device's or a neighbour's. */
  ghost predicate Unfit(m: map<Eui64, Nwk>, own: Nwk, neighbors: set<Nwk>, a: Nwk) {
    a == 0 || a >= 0xFFF8 || a == own || a in neighbors || exists e :: e in m && m[e] == a
  }

  /** A device not known before gets the first candidate that is none of these. */
  lemma {:induction false} FreshAddress(m: map<Eui64, Nwk>, own: Nwk, eui64: Eui64,
                                        neighbors: set<Nwk>, candidates: seq<Nwk>)
    returns (i: nat)
    requires eui64 !in m
    ensures i <= |candidates| && forall j :: 0 <= j < i ==> Unfit(m, own, neighbors, candidates[j])
    ensures i < |candidates| ==> !Unfit(m, own, neighbors, candidates[i])
    ensures Allocation(m, own, eui64, neighbors, candidates)
         == if i < |candidates| then Some(candidates[i]) else None
    decreases |candidates|
  {
    if candidates == [] || Usable(m, own, neighbors, candidates[0]) {
      i := 0;
    } else {
      var j := FreshAddress(m, own, eui64, neighbors, candidates[1..]);
      i := j + 1;
    }
  }

  /** What each operation does, in terms of the two lookups. */
  lemma OperationsMean(m: map<Eui64, Nwk>, own: Nwk, e: Eui64, n: Nwk, x: Eui64)
    ensures var c := Apply(m, own, Claim(e, n));
      && NwkOf(c, e) == Some(n) && (forall y :: y in c && c[y] == n ==> y == e)
      && (x != e ==> NwkOf(c, x) == if NwkOf(m, x) == Some(n) then None else NwkOf(m, x))
    ensures NwkOf(Apply(m, own, Forget(n)), x) == if NwkOf(m, x) == Some(n) then None else NwkOf(m, x)
    ensures var u := Apply(m, own, Update(e, n));
      if NwkOf(m, e) != Some(n) && (n == own || exists y :: y != e && NwkOf(m, y) == Some(n))
      then Conflict(m, own, e, n) && u == m
      else !Conflict(m, own, e, n) && NwkOf(u, e) == Some(n) && (x != e ==> NwkOf(u, x) == NwkOf(m, x))
  {
    if y :| y != e && NwkOf(m, y) == Some(n) {
      assert OwnedByOther(m, n, e);
    }
    if OwnedByOther(m, n, e) {
      var y :| y in m && m[y] == n && y != e;
      assert NwkOf(m, y) == Some(n);
    }
  }

  /** Recording an allocated address is never a conflict, and allocating again, with any
      neighbors and candidates, returns it unchanged. */
  lemma AllocationSticks(m: map<Eui64, Nwk>, own: Nwk, eui64: Eui64,
                         neighbors: set<Nwk>, candidates: seq<Nwk>, neighbors': set<Nwk>, candidates': seq<Nwk>)
    requires Allocation(m, own, eui64, neighbors, candidates).Some?
    ensures var nwk := Allocation(m, own, eui64, neighbors, candidates).value;
      && !Conflict(m, own, eui64, nwk)
      && Allocation(Apply(m, own, Update(eui64, nwk)), own, eui64, neighbors', candidates') == Some(nwk)
  {
    FirstUsableIsUsable(m, own, neighbors, candidates);
  }

  /** Our own mapping is not protected: a device announcing our address takes it. */
  lemma ClaimCanEvictUs(own: Nwk, ownEui64: Eui64, other: Eui64)
    requires other != ownEui64
    ensures var m := Apply(map[ownEui64 := own], own, Claim(other, own));
      NwkOf(m, ownEui64) == None && OwnerOf(m, own) == Some(other)
  {
    var m := Apply(map[ownEui64 := own], own, Claim(other, own));
    assert m == map[other := own] && m[other] == own;
  }

  /** Exactly when it is lost: when the address is forgotten or another device claims it, or
      when we are announced, or seen unopposed, under a different address. */
  lemma OwnMappingSurvivesIff(m: map<Eui64, Nwk>, own: Nwk, ownEui64: Eui64, op: Op)
    requires NwkOf(m, ownEui64) == Some(own)
    ensures NwkOf(Apply(m, own, op), ownEui64) == Some(own)
            <==> match op
                 case Forget(n) => n != own
                 case Claim(e, n) => (e == ownEui64) == (n == own)
                 case Update(e, n) => e != ownEui64 || n == own || OwnedByOther(m, n, ownEui64)
  {
  }
}
