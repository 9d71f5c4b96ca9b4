/** Spinel's packed unsigned integers: little-endian groups of seven bits, where the high bit
    of a byte says that more follow. Bytes are numbers here; masking with 0x7F, setting bit 7
    and shifting by seven are written as arithmetic with 128. */
module PackedIntegers {
  import opened Prelude

  const U21_MAX: nat := 0x20_0000

  /** The value and what follows it, reading at most `groups` bytes. */
  function Unpacked(bytes: seq<u8>, groups: nat): Option<(nat, seq<u8>)> {
    if groups == 0 || bytes == [] then None
    else if bytes[0] < 128 then Some((bytes[0], bytes[1..]))
    else
      var rest := Unpacked(bytes[1..], groups - 1);
      if rest.None? then None else Some((bytes[0] - 128 + 128 * rest.value.0, rest.value.1))
  }

  function Packed(value: nat): seq<u8> {
    if value < 128 then [value] else [value % 128 + 128] + Packed(value / 128)
  }

  /** The first value that needs more than so many groups. */
  function Limit(groups: nat): nat {
    if groups == 0 then 1 else 128 * Limit(groups - 1)
  }

  /** A group that says more follow goes below what the rest unpacks to. */
  lemma UnpackMore(low: u8, tail: seq<u8>, groups: nat)
    requires low < 128 && groups > 0
    ensures Unpacked([low + 128] + tail, groups)
         == match Unpacked(tail, groups - 1) case None => None case Some((high, rest)) => Some((low + 128 * high, rest))
  {
    assert ([low + 128] + tail)[1..] == tail;
  }

  lemma UnpackLast(low: u8, rest: seq<u8>, groups: nat)
    requires low < 128 && groups > 0
    ensures Unpacked([low] + rest, groups) == Some((low, rest))
  {
    assert ([low] + rest)[1..] == rest;
  }

  lemma PackedUnfolds(value: nat, rest: seq<u8>)
    requires value >= 128
    ensures Packed(value) + rest == [value % 128 + 128] + (Packed(value / 128) + rest)
  {
  }

  lemma LimitDivides(value: nat, groups: nat)
    requires groups > 0
    ensures value / 128 < Limit(groups - 1) <==> value < Limit(groups)
    ensures value % 128 + 128 * (value / 128) == value
  {
  }

  /** What was packed unpacks to itself when it fits in the groups that are read, and to
      nothing when it does not. */
  lemma {:induction false} UnpackPacked(value: nat, rest: seq<u8>, groups: nat)
    ensures Unpacked(Packed(value) + rest, groups)
         == if groups > 0 && value < Limit(groups) then Some((value, rest)) else None
    decreases groups
  {
    if groups > 0 {
      LimitIsPositive(groups - 1);
      LimitDivides(value, groups);
      if value < 128 {
        UnpackLast(value, rest, groups);
      } else {
        PackedUnfolds(value, rest);
        UnpackMore(value % 128, Packed(value / 128) + rest, groups);
        UnpackPacked(value / 128, rest, groups - 1);
        NoGroupsNoValue(value / 128, groups - 1);
      }
    }
  }

  lemma NoGroupsNoValue(value: nat, groups: nat)
    ensures value > 0 && groups == 0 ==> value >= Limit(groups)
  {
  }

  lemma LimitIsPositive(groups: nat)
    ensures Limit(groups) >= 1
  {
  }

  /** The writer accepts one value that the reader cannot read back: its own bound. */
  lemma PackedRoundTrip(value: nat, rest: seq<u8>)
    requires value <= U21_MAX
    ensures Unpacked(Packed(value) + rest, 3) == Some((value, rest)) <==> value != U21_MAX
  {
    UnpackPacked(value, rest, 3);
    assert Limit(0) == 1 && Limit(1) == 128 && Limit(2) == 16384 && Limit(3) == U21_MAX;
  }

  /** Whatever is read fits in 21 bits. */
  lemma {:induction false} UnpackedFits(bytes: seq<u8>, groups: nat)
    requires Unpacked(bytes, groups).Some?
    ensures Unpacked(bytes, groups).value.0 < Limit(groups)
    ensures |Unpacked(bytes, groups).value.1| < |bytes|
  {
    LimitIsPositive(groups - 1);
    if bytes[0] >= 128 {
      UnpackedFits(bytes[1..], groups - 1);
    }
  }

  lemma ReadsFit(bytes: seq<u8>)
    ensures var r := Unpacked(bytes, 3); r.Some? ==> r.value.0 < U21_MAX && |r.value.1| < |bytes|
  {
    assert Limit(0) == 1 && Limit(1) == 128 && Limit(2) == 16384 && Limit(3) == U21_MAX;
    if Unpacked(bytes, 3).Some? {
      UnpackedFits(bytes, 3);
    }
  }

  /** The writer part way: every chunk carries the more-follows bit, which is cleared in the
      last one once nothing is left. */
  ghost predicate Packing(value: nat, chunks: seq<u8>, temp: nat) {
    if temp > 0 then Packed(value) == chunks + Packed(temp)
    else chunks != [] && Packed(value) == chunks[..|chunks| - 1] + [chunks[|chunks| - 1] % 128]
  }

  lemma PackingStep(value: nat, chunks: seq<u8>, temp: nat)
    requires temp > 0 && Packing(value, chunks, temp)
    ensures Packing(value, chunks + [temp % 128 + 128], temp / 128)
  {
    var grown := chunks + [temp % 128 + 128];
    if temp < 128 {
      assert grown[..|grown| - 1] == chunks;
    } else {
      Regroup(chunks, [temp % 128 + 128], Packed(temp / 128));
    }
  }

  /** `None` is the writer's panic. */
  method ToBytes(value: nat) returns (r: Option<seq<u8>>)
    ensures r == if value > U21_MAX then None else Some(Packed(value))
  {
    if value == 0 {
      return Some([0]);
    }
    if value > U21_MAX {
      return None;
    }
    var chunks: seq<u8>, temp := [], value;
    while temp > 0
      invariant Packing(value, chunks, temp)
    {
      PackingStep(value, chunks, temp);
      chunks := chunks + [temp % 128 + 128];
      temp := temp / 128;
    }
    var last := |chunks| - 1;
    chunks := chunks[last := chunks[last] % 128];
    assert chunks == chunks[..last] + [chunks[last]];
    r := Some(chunks);
  }

  /** The groups read so far, put below what the rest unpacks to. */
  function Continued(result: nat, scale: nat, rest: Option<(nat, seq<u8>)>): Option<(nat, seq<u8>)> {
    if rest.None? then None else Some((result + scale * rest.value.0, rest.value.1))
  }

  method Deserialize(bytes: seq<u8>) returns (r: Option<(nat, seq<u8>)>)
    ensures r == Unpacked(bytes, 3)
    ensures r.Some? ==> r.value.0 < U21_MAX && |r.value.1| < |bytes|
  {
    ReadsFit(bytes);
    var result: nat, scale: nat, index: nat := 0, 1, 0;
    assert bytes[0..] == bytes;
    while index < |bytes|
      invariant index <= 2 && index <= |bytes|
      invariant Unpacked(bytes, 3) == Continued(result, scale, Unpacked(bytes[index..], 3 - index))
    {
      var b: nat := bytes[index];
      DeserializeStep(bytes, result, scale, index);
      result := result + b % 128 * scale;
      if b < 128 {
        return Some((result, bytes[index + 1..]));
      }
      if index >= 2 {
        break;
      }
      index, scale := index + 1, 128 * scale;
    }
    r := None;
  }

  lemma DeserializeStep(bytes: seq<u8>, result: nat, scale: nat, index: nat)
    requires index <= 2 && index < |bytes|
    ensures var b, tail := bytes[index], bytes[index + 1..];
      Continued(result, scale, Unpacked(bytes[index..], 3 - index))
      == if b < 128 then Some((result + b % 128 * scale, tail))
         else Continued(result + b % 128 * scale, 128 * scale, Unpacked(tail, 2 - index))
  {
    assert bytes[index..][1..] == bytes[index + 1..];
    var b: int, rest := bytes[index], Unpacked(bytes[index + 1..], 2 - index);
    if rest.Some? {
      Distributes(scale, b - 128, rest.value.0);
    }
  }

  lemma Distributes(scale: nat, low: int, high: nat)
    ensures scale * (low + 128 * high) == low * scale + 128 * scale * high
  {
  }

  /** A known value: the low group first, each but the last with its high bit set. */
  lemma KnownPacking(rest: seq<u8>)
    ensures Packed(0x1FD7FC) == [0xFC, 0xAF, 0x7F]
    ensures Unpacked([0xFC, 0xAF, 0x7F] + rest, 3) == Some((0x1FD7FC, rest))
  {
    assert Packed(0x7F) == [0x7F];
    assert Packed(0x3FAF) == [0xAF] + Packed(0x7F);
    assert Packed(0x1FD7FC) == [0xFC] + Packed(0x3FAF);
    PackedRoundTrip(0x1FD7FC, rest);
  }
}
