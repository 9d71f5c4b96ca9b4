/** Sorted vectors that stand in for ordered maps. */
module FlatMaps {
  import opened Prelude

  /** What `Ord` promises of a key type. */
  ghost predicate StrictOrder<K(!new)>(lt: (K, K) -> bool) {
    && (forall a :: !lt(a, a))
    && (forall a, b, c :: lt(a, b) && lt(b, c) ==> lt(a, c))
    && (forall a, b :: lt(a, b) || a == b || lt(b, a))
  }

  ghost predicate Asymmetric<K(!new)>(lt: (K, K) -> bool) {
    forall a, b :: lt(a, b) ==> !lt(b, a)
  }

  ghost predicate Ascending<K, V>(lt: (K, K) -> bool, s: seq<(K, V)>) {
    forall i, j :: 0 <= i < j < |s| ==> lt(s[i].0, s[j].0)
  }

  ghost function KeysOf<K, V>(s: seq<(K, V)>): set<K> {
    set i | 0 <= i < |s| :: s[i].0
  }

  /** The vector holds exactly the entries of a map. */
  ghost predicate Represents<K, V>(s: seq<(K, V)>, m: map<K, V>) {
    && m.Keys == KeysOf(s)
    && (forall i :: 0 <= i < |s| ==> s[i].0 in m && m[s[i].0] == s[i].1)
  }

  /** `key` belongs at position `i`: everything before is smaller, everything from there on
      is larger. */
  ghost predicate Gap<K, V>(lt: (K, K) -> bool, s: seq<(K, V)>, i: int, key: K) {
    && 0 <= i <= |s|
    && (forall j :: 0 <= j < i ==> lt(s[j].0, key))
    && (forall j :: i <= j < |s| ==> lt(key, s[j].0))
  }

  /** Cutting out one position takes away at most its key. */
  lemma KeysWithout<K, V>(s: seq<(K, V)>, i: nat)
    requires i < |s|
    ensures var t := s[..i] + s[i + 1..];
      && KeysOf(s) == KeysOf(t) + {s[i].0}
      && forall j :: 0 <= j < |t| ==> t[j] == s[if j < i then j else j + 1]
  {
    var t := s[..i] + s[i + 1..];
    forall k | k in KeysOf(s) ensures k in KeysOf(t) + {s[i].0} {
      var j :| 0 <= j < |s| && s[j].0 == k;
      if j != i {
        assert t[if j < i then j else j - 1].0 == k;
      }
    }
    forall k | k in KeysOf(t) ensures k in KeysOf(s) {
      var j :| 0 <= j < |t| && t[j].0 == k;
      assert s[if j < i then j else j + 1].0 == k;
    }
  }

  lemma InsertedAscends<K, V>(lt: (K, K) -> bool, s: seq<(K, V)>, i: nat, key: K, value: V)
    requires Ascending(lt, s) && Gap(lt, s, i, key)
    ensures Ascending(lt, s[..i] + [(key, value)] + s[i..])
  {
  }

  lemma InsertedRepresents<K, V>(lt: (K, K) -> bool, s: seq<(K, V)>, m: map<K, V>, i: nat, key: K, value: V)
    requires Represents(s, m) && Gap(lt, s, i, key) && !lt(key, key)
    ensures Represents(s[..i] + [(key, value)] + s[i..], m[key := value])
  {
    var t := s[..i] + [(key, value)] + s[i..];
    KeysWithout(t, i);
    assert t[..i] + t[i + 1..] == s;
  }

  /** Inserting pairs one after the other: a later pair wins. */
  ghost function PutAll<K, V>(m: map<K, V>, items: seq<(K, V)>): map<K, V> {
    if items == [] then m
    else PutAll(m, items[..|items| - 1])[items[|items| - 1].0 := items[|items| - 1].1]
  }

  /** The entries a filter keeps, with the values it leaves in them. */
  ghost function Kept<K, V>(m: map<K, V>, f: (K, V) -> Option<V>): map<K, V> {
    map k | k in m && f(k, m[k]).Some? :: f(k, m[k]).value
  }

  /** The same on the vector, in order. */
  function Filtered<K, V>(s: seq<(K, V)>, f: (K, V) -> Option<V>): seq<(K, V)> {
    if s == [] then []
    else
      var last := s[|s| - 1];
      var r := f(last.0, last.1);
      Filtered(s[..|s| - 1], f) + if r.Some? then [(last.0, r.value)] else []
  }

  /** A slot in the map for one key, found by a single search. */
  datatype Entry<K> = Occupied(index: nat) | Vacant(index: nat, key: K)

  class FlatMap<K(!new, ==), V> {
    const lt: (K, K) -> bool
    var entries: seq<(K, V)>
    ghost var Contents: map<K, V>

    ghost predicate Valid()
      reads this
    {
      StrictOrder(lt) && Ascending(lt, entries) && Represents(entries, Contents)
    }

    constructor (lt: (K, K) -> bool)
      requires StrictOrder(lt)
      ensures Valid() && Contents == map[] && this.lt == lt
    {
      this.lt, entries, Contents := lt, [], map[];
    }

    method IndexOf(key: K) returns (found: bool, i: nat)
      requires Valid()
      ensures found == (key in Contents)
      ensures found ==> i < |entries| && entries[i].0 == key
      ensures !found ==> Gap(lt, entries, i, key)
    {
      var lo, hi := 0, |entries|;
      while lo < hi
        invariant 0 <= lo <= hi <= |entries|
        invariant forall j :: 0 <= j < lo ==> lt(entries[j].0, key)
        invariant forall j :: hi <= j < |entries| ==> lt(key, entries[j].0)
      {
        var mid := (lo + hi) / 2;
        if entries[mid].0 == key {
          return true, mid;
        } else if lt(entries[mid].0, key) {
          lo := mid + 1;
        } else {
          hi := mid;
        }
      }
      return false, lo;
    }

    method Get(key: K) returns (r: Option<V>)
      requires Valid()
      ensures r == if key in Contents then Some(Contents[key]) else None
    {
      var found, i := IndexOf(key);
      r := if found then Some(entries[i].1) else None;
    }

    /** Store a value over the one at `i`. */
    method ReplaceAt(i: nat, value: V)
      requires Valid() && i < |entries|
      modifies this
      ensures Valid() && Contents == old(Contents)[old(entries)[i].0 := value]
      ensures entries == old(entries)[i := (old(entries)[i].0, value)]
    {
      ghost var before := entries;
      entries := entries[i := (entries[i].0, value)];
      Contents := Contents[before[i].0 := value];
      assert forall j :: 0 <= j < |entries| ==> entries[j].0 == before[j].0;
    }

    /** Open the gap at `i` for a new key. */
    method InsertAt(i: nat, key: K, value: V)
      requires Valid() && Gap(lt, entries, i, key)
      modifies this
      ensures Valid() && Contents == old(Contents)[key := value]
      ensures i < |entries| && entries[i] == (key, value)
    {
      ghost var before := entries;
      entries := entries[..i] + [(key, value)] + entries[i..];
      Contents := Contents[key := value];
      InsertedAscends(lt, before, i, key, value);
      InsertedRepresents(lt, before, old(Contents), i, key, value);
    }

    method RemoveAt(i: nat)
      requires Valid() && i < |entries|
      modifies this
      ensures Valid() && Contents == old(Contents) - {old(entries)[i].0}
    {
      ghost var before := entries;
      entries := entries[..i] + entries[i + 1..];
      Contents := Contents - {before[i].0};
      KeysWithout(before, i);
    }

    method Insert(key: K, value: V) returns (previous: Option<V>)
      requires Valid()
      modifies this
      ensures Valid() && Contents == old(Contents)[key := value]
      ensures previous == if key in old(Contents) then Some(old(Contents)[key]) else None
    {
      var found, i := IndexOf(key);
      if found {
        previous := Some(entries[i].1);
        ReplaceAt(i, value);
      } else {
        previous := None;
        InsertAt(i, key, value);
      }
    }

    method Remove(key: K) returns (removed: Option<V>)
      requires Valid()
      modifies this
      ensures Valid() && Contents == old(Contents) - {key}
      ensures removed == if key in old(Contents) then Some(old(Contents)[key]) else None
    {
      var found, i := IndexOf(key);
      if found {
        removed := Some(entries[i].1);
        RemoveAt(i);
      } else {
        removed := None;
      }
    }

    /** Remove and return the entry with the least key. */
    method PopFirst() returns (first: Option<(K, V)>)
      requires Valid()
      modifies this
      ensures Valid()
      ensures first.None? <==> old(Contents) == map[]
      ensures first.None? ==> Contents == map[]
      ensures first.Some? ==>
          && first.value.0 in old(Contents) && old(Contents)[first.value.0] == first.value.1
          && Contents == old(Contents) - {first.value.0}
          && forall k :: k in Contents ==> lt(first.value.0, k)
    {
      if |entries| == 0 {
        first := None;
      } else {
        first := Some(entries[0]);
        RemoveAt(0);
      }
    }

    /** Keep what the filter keeps; it may change the values it keeps. */
    method Retain(f: (K, V) -> Option<V>)
      requires Valid()
      modifies this
      ensures Valid() && Contents == Kept(old(Contents), f)
    {
      var kept, i := [], 0;
      while i < |entries|
        invariant 0 <= i <= |entries| && entries == old(entries) && Contents == old(Contents)
        invariant kept == Filtered(entries[..i], f)
      {
        var r := f(entries[i].0, entries[i].1);
        if r.Some? {
          kept := kept + [(entries[i].0, r.value)];
        }
        i := i + 1;
        assert entries[..i][..i - 1] == entries[..i - 1];
      }
      assert entries[..i] == entries;
      FilteredAscends(lt, entries, f);
      FilteredRepresents(lt, entries, Contents, f);
      entries, Contents := kept, Kept(Contents, f);
    }

    /** Insert pairs one after the other. */
    method Extend(items: seq<(K, V)>)
      requires Valid()
      modifies this
      ensures Valid() && Contents == PutAll(old(Contents), items)
    {
      for i := 0 to |items|
        invariant Valid() && Contents == PutAll(old(Contents), items[..i])
      {
        var _ := Insert(items[i].0, items[i].1);
        assert items[..i + 1][..i] == items[..i];
      }
      assert items[..|items|] == items;
    }

    /** An entry is good while the map has not changed since it was looked up. */
    ghost predicate Fresh(e: Entry<K>)
      reads this
    {
      match e
      case Occupied(i) => i < |entries|
      case Vacant(i, key) => Gap(lt, entries, i, key)
    }

    method LookUp(key: K) returns (e: Entry<K>)
      requires Valid()
      ensures Fresh(e)
      ensures e.Occupied? <==> key in Contents
      ensures e.Occupied? ==> entries[e.index].0 == key
      ensures e.Vacant? ==> e.key == key
    {
      var found, i := IndexOf(key);
      e := if found then Occupied(i) else Vacant(i, key);
    }

    method AndModify(e: Entry<K>, f: V -> V)
      requires Valid() && Fresh(e)
      modifies this
      ensures Valid() && Fresh(e)
      ensures e.Vacant? ==> entries == old(entries) && Contents == old(Contents)
      ensures e.Occupied? ==>
          var key := old(entries)[e.index].0;
          Contents == old(Contents)[key := f(old(Contents)[key])] && entries[e.index].0 == key
    {
      if e.Occupied? {
        ReplaceAt(e.index, f(entries[e.index].1));
      }
    }

    /** The position holding the entry's key, inserting the default if it is vacant. */
    method OrInsertWith(e: Entry<K>, default: V) returns (i: nat)
      requires Valid() && Fresh(e)
      modifies this
      ensures Valid() && i < |entries|
      ensures e.Occupied? ==> i == e.index && entries == old(entries) && Contents == old(Contents)
      ensures e.Vacant? ==> Contents == old(Contents)[e.key := default] && entries[i] == (e.key, default)
    {
      if e.Vacant? {
        InsertAt(e.index, e.key, default);
      }
      i := e.index;
    }
  }

  lemma AscendingPrefix<K(!new), V>(lt: (K, K) -> bool, s: seq<(K, V)>, m: map<K, V>)
    requires s != [] && Ascending(lt, s) && Represents(s, m)
    requires Asymmetric(lt)
    ensures var n := |s| - 1; Ascending(lt, s[..n]) && Represents(s[..n], m - {s[n].0})
  {
    var n := |s| - 1;
    KeysWithout(s, n);
    assert s[..n] + s[n + 1..] == s[..n];
  }

  lemma FilteredBelow<K, V>(lt: (K, K) -> bool, s: seq<(K, V)>, f: (K, V) -> Option<V>, key: K)
    requires forall i :: 0 <= i < |s| ==> lt(s[i].0, key)
    ensures forall i :: 0 <= i < |Filtered(s, f)| ==> lt(Filtered(s, f)[i].0, key)
  {
    if s != [] {
      FilteredBelow(lt, s[..|s| - 1], f, key);
    }
  }

  lemma KeptOneMore<K, V>(m: map<K, V>, f: (K, V) -> Option<V>, key: K)
    requires key in m
    ensures var kept := Kept(m - {key}, f);
      Kept(m, f) == if f(key, m[key]).Some? then kept[key := f(key, m[key]).value] else kept
  {
  }

  lemma {:induction false} FilteredAscends<K, V>(lt: (K, K) -> bool, s: seq<(K, V)>, f: (K, V) -> Option<V>)
    requires Ascending(lt, s)
    ensures Ascending(lt, Filtered(s, f))
    decreases |s|
  {
    if s != [] {
      var n := |s| - 1;
      FilteredAscends(lt, s[..n], f);
      FilteredBelow(lt, s[..n], f, s[n].0);
    }
  }

  lemma {:induction false} FilteredRepresents<K(!new), V>(lt: (K, K) -> bool, s: seq<(K, V)>, m: map<K, V>,
                                                          f: (K, V) -> Option<V>)
    requires Ascending(lt, s) && Represents(s, m)
    requires Asymmetric(lt)
    ensures Represents(Filtered(s, f), Kept(m, f))
    decreases |s|
  {
    if s != [] {
      var n := |s| - 1;
      var last, rest := s[n], m - {s[n].0};
      AscendingPrefix(lt, s, m);
      FilteredRepresents(lt, s[..n], rest, f);
      KeptOneMore(m, f, last.0);
      if f(last.0, last.1).Some? {
        FilteredAppends(Filtered(s[..n], f), Kept(rest, f), (last.0, f(last.0, last.1).value), Kept(m, f));
      }
    }
  }

  lemma FilteredAppends<K, V>(s: seq<(K, V)>, m: map<K, V>, e: (K, V), whole: map<K, V>)
    requires Represents(s, m) && e.0 !in m && whole == m[e.0 := e.1]
    ensures Represents(s + [e], whole)
  {
    var t := s + [e];
    KeysWithout(t, |s|);
    assert t[..|s|] + t[|s| + 1..] == s;
  }

  lemma LastIsGreatest<K, V>(lt: (K, K) -> bool, s: seq<(K, V)>, m: map<K, V>, k: K)
    requires s != [] && Ascending(lt, s) && Represents(s, m) && k in m
    ensures k == s[|s| - 1].0 || lt(k, s[|s| - 1].0)
  {
    var i :| 0 <= i < |s| && s[i].0 == k;
  }

  lemma SameLast<K(!new), V>(lt: (K, K) -> bool, s: seq<(K, V)>, t: seq<(K, V)>, m: map<K, V>)
    requires Asymmetric(lt) && Ascending(lt, s) && Ascending(lt, t) && s != [] && t != []
    requires Represents(s, m) && Represents(t, m)
    ensures s[|s| - 1] == t[|t| - 1]
  {
    LastIsGreatest(lt, s, m, t[|t| - 1].0);
    LastIsGreatest(lt, t, m, s[|s| - 1].0);
  }

  lemma EmptyRepresents<K, V>(s: seq<(K, V)>, m: map<K, V>)
    requires Represents(s, m)
    ensures s == [] <==> m == map[]
  {
    if s != [] {
      assert s[0].0 in m;
    }
  }

  /** The vector is determined by its map, so comparing two maps entry by entry, as the
      derived equality does, decides whether they hold the same entries. */
  lemma {:induction false} Canonical<K(!new), V>(lt: (K, K) -> bool, s: seq<(K, V)>, t: seq<(K, V)>, m: map<K, V>)
    requires Asymmetric(lt) && Ascending(lt, s) && Ascending(lt, t)
    requires Represents(s, m) && Represents(t, m)
    ensures s == t
    decreases |s|
  {
    EmptyRepresents(s, m);
    EmptyRepresents(t, m);
    if s != [] {
      SameLast(lt, s, t, m);
      AscendingPrefix(lt, s, m);
      AscendingPrefix(lt, t, m);
      var n, l := |s| - 1, |t| - 1;
      Canonical(lt, s[..n], t[..l], m - {s[n].0});
      assert s == s[..n] + [s[n]] && t == t[..l] + [t[l]];
    }
  }
}
