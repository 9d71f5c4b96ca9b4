/** The IEEE 802.15.4 frame check sequence: the source's nibble-multiply loop against the
    serial shift register of the standard. */
module FrameCheck {

  type byte = bv8

  /** The remainder register of section 7.2.10 of IEEE Std 802.15.4-2015 for the generator
      x^16 + x^12 + x^5 + 1: shift in the low bit of `bit`, and subtract the generator when
      a one falls out of the top. */
  function Shift(r: bv16, bit: bv16): bv16 {
    (r << 1) ^ (((r >> 15) ^ (bit & 1)) * 0x1021)
  }

  /** The octets of a frame are sent least significant bit first. */
  function ShiftNibble(r: bv16, n: bv16): bv16 {
    Shift(Shift(Shift(Shift(r, n), n >> 1), n >> 2), n >> 3)
  }

  function ShiftOctet(r: bv16, c: byte): bv16 {
    ShiftNibble(ShiftNibble(r, c as bv16), c as bv16 >> 4)
  }

  function Remainder(data: seq<byte>): bv16 {
    if data == [] then 0 else ShiftOctet(Remainder(data[..|data| - 1]), data[|data| - 1])
  }

  function SwapBits(r: bv16): bv16 {
    ((r & 0x5555) << 1) | ((r >> 1) & 0x5555)
  }

  function SwapPairs(r: bv16): bv16 {
    ((r & 0x3333) << 2) | ((r >> 2) & 0x3333)
  }

  function SwapNibbles(r: bv16): bv16 {
    ((r & 0x0F0F) << 4) | ((r >> 4) & 0x0F0F)
  }

  /** The register is sent highest-order coefficient first, so as a little-endian word it
      reads in reverse. */
  function Reverse(r: bv16): bv16 {
    var s := SwapNibbles(SwapPairs(SwapBits(r)));
    (s << 8) | (s >> 8)
  }

  function Fcs(data: seq<byte>): bv16 {
    Reverse(Remainder(data))
  }

  /** One step of the register as the reversed word sees it. */
  function Reflected(crc: bv16, bit: bv16): bv16 {
    (crc >> 1) ^ (((crc ^ bit) & 1) * 0x8408)
  }

  function Nibble(crc: bv16, n: bv16): bv16 {
    (crc >> 4) ^ (((crc ^ n) & 0xF) * 0x1081)
  }

  function Octet(crc: bv16, c: byte): bv16 {
    Nibble(Nibble(crc, c as bv16), c as bv16 >> 4)
  }

  lemma ReverseStep(r: bv16, bit: bv16)
    ensures Reverse(Shift(r, bit)) == Reflected(Reverse(r), bit)
  {
  }

  /** Four reflected steps are one multiplication by 0x1081. */
  lemma FourSteps(crc: bv16, n: bv16)
    ensures Reflected(Reflected(Reflected(Reflected(crc, n), n >> 1), n >> 2), n >> 3) == Nibble(crc, n)
  {
  }

  lemma ReverseNibble(r: bv16, n: bv16)
    ensures Reverse(ShiftNibble(r, n)) == Nibble(Reverse(r), n)
  {
    var r1 := Shift(r, n);
    var r2 := Shift(r1, n >> 1);
    var r3 := Shift(r2, n >> 2);
    ReverseStep(r, n);
    ReverseStep(r1, n >> 1);
    ReverseStep(r2, n >> 2);
    ReverseStep(r3, n >> 3);
    FourSteps(Reverse(r), n);
  }

  /** An octet advances the checksum by two nibbles, low one first. */
  lemma FcsAppend(data: seq<byte>, c: byte)
    ensures Fcs(data + [c]) == Octet(Fcs(data), c)
  {
    var r := Remainder(data);
    assert (data + [c])[..|data|] == data;
    assert Remainder(data + [c]) == ShiftOctet(r, c);
    ReverseNibble(r, c as bv16);
    ReverseNibble(ShiftNibble(r, c as bv16), c as bv16 >> 4);
  }

  /** The source's byte-wide masking picks the nibble the word-wide one does. */
  lemma MaskedNibble(crc: bv16, n: byte)
    ensures ((((crc & 0x0F) as bv8) ^ n) & 0x0F) as bv16 == (crc ^ (n as bv16)) & 0xF
  {
  }

  lemma HighNibble(c: byte)
    ensures (c >> 4) as bv16 == c as bv16 >> 4
  {
  }

  /** Half a turn of the source's loop. */
  method FoldInNibble(crc: bv16, n: byte) returns (next: bv16)
    ensures next == Nibble(crc, n as bv16)
  {
    MaskedNibble(crc, n);
    var q := (((crc & 0x0F) as bv8) ^ n) & 0x0F;
    next := (crc >> 4) ^ ((q as bv16) * 0x1081);
  }

  /** The loop computes the standard's checksum. */
  method ComputeFcs(data: seq<byte>) returns (crc: bv16)
    ensures crc == Fcs(data)
  {
    crc := 0x0000;
    for i := 0 to |data|
      invariant crc == Fcs(data[..i])
    {
      crc := FoldInNibble(crc, data[i]);
      crc := FoldInNibble(crc, data[i] >> 4);
      HighNibble(data[i]);
      FcsAppend(data[..i], data[i]);
      assert data[..i] + [data[i]] == data[..i + 1];
    }
    assert data[..|data|] == data;
  }

  // ---------------------------------------------------------------- what the checksum detects

  function LoByte(w: bv16): byte {
    (w & 0xFF) as byte
  }

  function HiByte(w: bv16): byte {
    (w >> 8) as byte
  }

  function Word(lo: byte, hi: byte): bv16 {
    (lo as bv16) | (hi as bv16 << 8)
  }

  lemma WordRoundTrip(w: bv16, lo: byte, hi: byte)
    ensures Word(LoByte(w), HiByte(w)) == w
    ensures LoByte(Word(lo, hi)) == lo && HiByte(Word(lo, hi)) == hi
  {
  }

  /** A nibble step undone: its top four bits tell which multiple of 0x1081 was added. */
  function Undo(crc: bv16, n: bv16): bv16 {
    ((crc ^ ((crc >> 12) * 0x1081)) << 4) | (((crc >> 12) ^ n) & 0xF)
  }

  lemma UndoNibble(crc: bv16, n: bv16)
    ensures Undo(Nibble(crc, n), n) == crc
  {
  }

  lemma UndoOctet(crc: bv16, c: byte)
    ensures Undo(Undo(Octet(crc, c), c as bv16 >> 4), c as bv16) == crc
  {
    UndoNibble(crc, c as bv16);
    UndoNibble(Nibble(crc, c as bv16), c as bv16 >> 4);
  }

  lemma OctetIsInjective(x: bv16, y: bv16, c: byte)
    requires x != y
    ensures Octet(x, c) != Octet(y, c)
  {
    UndoOctet(x, c);
    UndoOctet(y, c);
  }

  /** An octet undone as if it had been zero stays added to the register. */
  lemma UndoUnknownOctet(x: bv16, c: byte)
    ensures Undo(Undo(Octet(x, c), 0), 0) == x ^ (c as bv16)
  {
  }

  lemma CancelWord(x: bv16, a: byte, c: byte)
    requires x ^ (a as bv16) == x ^ (c as bv16)
    ensures a == c
  {
  }

  /** From the same register, different octets lead to different registers. */
  lemma OctetCanBeReadBack(x: bv16, a: byte, c: byte)
    requires Octet(x, a) == Octet(x, c)
    ensures a == c
  {
    UndoUnknownOctet(x, a);
    UndoUnknownOctet(x, c);
    CancelWord(x, a, c);
  }

  lemma NibbleCancels(w: bv16, n: bv16)
    requires w & 0xF == n & 0xF
    ensures Nibble(w, n) == w >> 4
  {
  }

  lemma OctetCancels(w: bv16, c: byte)
    requires LoByte(w) == c
    ensures Octet(w, c) == w >> 8
  {
    NibbleCancels(w, c as bv16);
    NibbleCancels(w >> 4, c as bv16 >> 4);
  }

  lemma WordCancels(lo: byte, hi: byte)
    ensures Octet(Octet(Word(lo, hi), lo), hi) == 0
  {
    WordRoundTrip(0, lo, hi);
    OctetCancels(Word(lo, hi), lo);
    assert LoByte(Word(lo, hi) >> 8) == hi;
    OctetCancels(Word(lo, hi) >> 8, hi);
  }

  lemma TwoOctetsToZero(crc: bv16, lo: byte, hi: byte)
    ensures Octet(Octet(crc, lo), hi) == 0 <==> crc == Word(lo, hi)
  {
    var w := Word(lo, hi);
    WordCancels(lo, hi);
    if crc != w {
      OctetIsInjective(crc, w, lo);
      OctetIsInjective(Octet(crc, lo), Octet(w, lo), hi);
    }
  }

  /** A frame passes its check exactly when its checksum, check bytes included, is zero. */
  lemma ResidueIsZero(data: seq<byte>, lo: byte, hi: byte)
    ensures Fcs(data + [lo, hi]) == 0 <==> Fcs(data) == Word(lo, hi)
  {
    FcsAppend(data, lo);
    FcsAppend(data + [lo], hi);
    assert data + [lo] + [hi] == data + [lo, hi];
    TwoOctetsToZero(Fcs(data), lo, hi);
  }

  lemma {:induction false} DifferenceSurvives(s: seq<byte>, t: seq<byte>, tail: seq<byte>)
    requires Fcs(s) != Fcs(t)
    ensures Fcs(s + tail) != Fcs(t + tail)
    decreases |tail|
  {
    if tail == [] {
      assert s + tail == s && t + tail == t;
    } else {
      var n := |tail| - 1;
      DifferenceSurvives(s, t, tail[..n]);
      assert s + tail == s + tail[..n] + [tail[n]];
      assert t + tail == t + tail[..n] + [tail[n]];
      FcsAppend(s + tail[..n], tail[n]);
      FcsAppend(t + tail[..n], tail[n]);
      OctetIsInjective(Fcs(s + tail[..n]), Fcs(t + tail[..n]), tail[n]);
    }
  }

  /** Any corruption of a single octet of a frame, check bytes included, changes the
      checksum. */
  lemma CorruptOctetIsDetected(head: seq<byte>, a: byte, c: byte, tail: seq<byte>)
    requires a != c
    ensures Fcs(head + [a] + tail) != Fcs(head + [c] + tail)
  {
    FcsAppend(head, a);
    FcsAppend(head, c);
    if Fcs(head + [a]) == Fcs(head + [c]) {
      OctetCanBeReadBack(Fcs(head), a, c);
    }
    DifferenceSurvives(head + [a], head + [c], tail);
  }
}
