/** HDLC-lite framing of the Spinel link: octet stuffing as in section 4.2 of RFC 1662 and
    the incremental deframer that resynchronises on flags. */
module Hdlc {
  import opened Prelude

  type byte = bv8

  /** The check bytes of a payload, low byte first. Nothing is assumed of them. */
  type Checksum = seq<byte> -> (byte, byte)

  const FLAG: byte := 0x7E
  const ESCAPE: byte := 0x7D
  const MAX_HDLC_BUFFER_SIZE: nat := 4096

  /** Flag, escape, XON, XOFF and the vendor byte travel escaped. */
  predicate Special(b: byte) {
    b == FLAG || b == ESCAPE || b == 0x11 || b == 0x13 || b == 0xF8
  }

  // ---------------------------------------------------------------- octet stuffing

  /** The code that follows the escape byte: the special byte with bit 5 flipped. */
  function EscapeCode(b: byte): byte
    requires Special(b)
  {
    if b == FLAG then 0x5E else if b == ESCAPE then 0x5D
    else if b == 0x11 then 0x31 else if b == 0x13 then 0x33 else 0xD8
  }

  function ByteOfCode(c: byte): Option<byte> {
    if c == 0x5E then Some(FLAG) else if c == 0x5D then Some(ESCAPE)
    else if c == 0x31 then Some(0x11) else if c == 0x33 then Some(0x13)
    else if c == 0xD8 then Some(0xF8) else None
  }

  /** The source flips the bit and checks that the result is special. */
  lemma CodesFlipBit5(b: byte)
    ensures Special(b) ==> EscapeCode(b) == b ^ 0x20
    ensures ByteOfCode(b) == if Special(b ^ 0x20) then Some(b ^ 0x20) else None
  {
  }

  function StuffByte(b: byte): seq<byte> {
    if Special(b) then [ESCAPE, EscapeCode(b)] else [b]
  }

  function Stuffed(s: seq<byte>): seq<byte> {
    if s == [] then [] else Stuffed(s[..|s| - 1]) + StuffByte(s[|s| - 1])
  }

  /** What unstuffing has read so far: the bytes, and whether an escape is open; or an
      escape of a byte that is never escaped. */
  datatype Unstuffing = Read(data: seq<byte>, escaping: bool) | BadEscape

  function UnstuffByte(u: Unstuffing, b: byte): Unstuffing {
    if u.BadEscape? then BadEscape
    else if u.escaping then
      if ByteOfCode(b).Some? then Read(u.data + [ByteOfCode(b).value], false) else BadEscape
    else if b == ESCAPE then Read(u.data, true)
    else if b == FLAG then u
    else Read(u.data + [b], false)
  }

  function Unstuffed(s: seq<byte>): Unstuffing {
    if s == [] then Read([], false) else UnstuffByte(Unstuffed(s[..|s| - 1]), s[|s| - 1])
  }

  function WithCheck(data: seq<byte>, crc: Checksum): seq<byte> {
    data + [crc(data).0, crc(data).1]
  }

  /** The escaped form of a payload and its check bytes, without flags. */
  function Encoded(data: seq<byte>, crc: Checksum): seq<byte> {
    Stuffed(WithCheck(data, crc))
  }

  function Decoded(s: seq<byte>, crc: Checksum): Option<seq<byte>> {
    var u := Unstuffed(s);
    if |s| < 2 || u.BadEscape? || |u.data| < 2 then None
    else
      var n := |u.data| - 2;
      if crc(u.data[..n]) == (u.data[n], u.data[n + 1]) then Some(u.data[..n]) else None
  }

  lemma StuffedAppend(s: seq<byte>, b: byte)
    ensures Stuffed(s + [b]) == Stuffed(s) + StuffByte(b)
  {
    assert (s + [b])[..|s|] == s;
  }

  lemma UnstuffedAppend(s: seq<byte>, b: byte)
    ensures Unstuffed(s + [b]) == UnstuffByte(Unstuffed(s), b)
  {
    assert (s + [b])[..|s|] == s;
  }

  lemma CodeReadsBack(b: byte)
    ensures Special(b) ==> ByteOfCode(EscapeCode(b)) == Some(b)
    ensures !Special(b) ==> b != ESCAPE && b != FLAG
  {
  }

  lemma EscapedReadsBack(s: seq<byte>, data: seq<byte>, b: byte)
    requires Unstuffed(s) == Read(data, false) && Special(b)
    ensures Unstuffed(s + [ESCAPE] + [EscapeCode(b)]) == Read(data + [b], false)
  {
    CodeReadsBack(b);
    UnstuffedAppend(s, ESCAPE);
    UnstuffedAppend(s + [ESCAPE], EscapeCode(b));
  }

  /** A byte is read back from its stuffed form. */
  lemma StuffedByteReadsBack(s: seq<byte>, data: seq<byte>, b: byte)
    requires Unstuffed(s) == Read(data, false)
    ensures Unstuffed(s + StuffByte(b)) == Read(data + [b], false)
  {
    if Special(b) {
      EscapedReadsBack(s, data, b);
      Regroup(s, [ESCAPE], [EscapeCode(b)]);
      assert [ESCAPE] + [EscapeCode(b)] == StuffByte(b);
    } else {
      CodeReadsBack(b);
      UnstuffedAppend(s, b);
    }
  }

  /** Unstuffing undoes stuffing. */
  lemma {:induction false} StuffedRoundTrip(s: seq<byte>)
    ensures Unstuffed(Stuffed(s)) == Read(s, false)
  {
    if s != [] {
      var front, b := s[..|s| - 1], s[|s| - 1];
      StuffedRoundTrip(front);
      StuffedByteReadsBack(Stuffed(front), front, b);
      Grow(s, |s| - 1);
    }
  }

  /** Stuffing hides every flag and at most doubles the length. */
  lemma {:induction false} StuffedIsPlain(s: seq<byte>)
    ensures FLAG !in Stuffed(s)
    ensures |s| <= |Stuffed(s)| <= 2 * |s|
  {
    if s != [] {
      StuffedIsPlain(s[..|s| - 1]);
    }
  }

  lemma EncodedRoundTrip(data: seq<byte>, crc: Checksum)
    ensures Encoded(data, crc) != [] && FLAG !in Encoded(data, crc)
    ensures Decoded(Encoded(data, crc), crc) == Some(data)
    ensures Unstuffed(Encoded(data, crc)) == Read(data + [crc(data).0, crc(data).1], false)
  {
    var whole := WithCheck(data, crc);
    StuffedRoundTrip(whole);
    StuffedIsPlain(whole);
    assert whole[..|data|] == data;
  }

  /** Only the five special bytes are changed: none but the escape itself appears in a stuffed
      string, */
  lemma {:induction false} StuffedHidesSpecials(s: seq<byte>, b: byte)
    requires b == 0x7E || b == 0x11 || b == 0x13 || b == 0xF8
    ensures b !in Stuffed(s)
  {
    if s != [] {
      StuffedHidesSpecials(s[..|s| - 1], b);
    }
  }

  /** and a string without any of them is sent as it is. */
  lemma {:induction false} PlainIsSentAsIs(s: seq<byte>)
    requires forall i :: 0 <= i < |s| ==> s[i] != 0x7E && s[i] != 0x7D && s[i] != 0x11 && s[i] != 0x13 && s[i] != 0xF8
    ensures Stuffed(s) == s
  {
    if s != [] {
      PlainIsSentAsIs(s[..|s| - 1]);
      Grow(s, |s| - 1);
    }
  }

  /** An escape of a byte that is never escaped spoils the whole frame. */
  lemma BadEscapeIsRefused(s: seq<byte>, c: byte, rest: seq<byte>, crc: Checksum)
    requires Unstuffed(s).Read? && !Unstuffed(s).escaping
    requires c ^ 0x20 != 0x7E && c ^ 0x20 != 0x7D && c ^ 0x20 != 0x11 && c ^ 0x20 != 0x13 && c ^ 0x20 != 0xF8
    ensures Decoded(s + [ESCAPE] + [c] + rest, crc) == None
  {
    var bad := s + [ESCAPE] + [c];
    UnstuffedAppend(s, ESCAPE);
    UnstuffedAppend(s + [ESCAPE], c);
    CodesFlipBit5(c);
    assert (bad + rest)[..|bad|] == bad;
    BadEscapeSticks(bad + rest, |bad|);
  }

  /** A payload is delivered if and only if the bytes unescape to it followed by its own check
      bytes. */
  lemma DecodedIff(s: seq<byte>, p: seq<byte>, crc: Checksum)
    requires |s| >= 2
    ensures Decoded(s, crc) == Some(p)
            <==> Unstuffed(s).Read? && Unstuffed(s).data == p + [crc(p).0, crc(p).1]
  {
    var u := Unstuffed(s);
    if u.Read? && |u.data| >= 2 {
      var n := |u.data| - 2;
      assert u.data == u.data[..n] + [u.data[n], u.data[n + 1]];
      assert WithCheck(p, crc)[..|p|] == p;
      if u.data == WithCheck(p, crc) {
        assert u.data[..n] == p;
      }
    }
  }

  /** Two bytes are the least a frame can be. */
  lemma ShortIsRefused(s: seq<byte>, crc: Checksum)
    requires |s| < 2
    ensures Decoded(s, crc) == None
  {
  }

  method EscapeInto(data: seq<byte>, prefix: seq<byte>, crc: Checksum) returns (result: seq<byte>)
    ensures result == prefix + Encoded(data, crc)
  {
    var whole := data + [crc(data).0, crc(data).1];
    result := prefix;
    for i := 0 to |whole|
      invariant result == prefix + Stuffed(whole[..i])
    {
      var b := whole[i];
      StuffedAppend(whole[..i], b);
      Grow(whole, i);
      Regroup(prefix, Stuffed(whole[..i]), StuffByte(b));
      var code := EscapeByte(b);
      result := result + code;
    }
    assert whole[..|whole|] == whole;
  }

  method EscapeByte(b: byte) returns (code: seq<byte>)
    ensures code == StuffByte(b)
  {
    if b == FLAG || b == ESCAPE || b == 0x11 || b == 0x13 || b == 0xF8 {
      CodesFlipBit5(b);
      code := [ESCAPE, b ^ 0x20];
    } else {
      code := [b];
    }
  }

  method UnescapeInto(bytes: seq<byte>, crc: Checksum) returns (r: Option<seq<byte>>)
    ensures r == Decoded(bytes, crc)
  {
    if |bytes| < 2 {
      return None;
    }
    var data, unescaping := [], false;
    for i := 0 to |bytes|
      invariant Unstuffed(bytes[..i]) == Read(data, unescaping)
    {
      var b := bytes[i];
      UnstuffedAppend(bytes[..i], b);
      CodesFlipBit5(b);
      assert bytes[..i] + [b] == bytes[..i + 1];
      if unescaping {
        b := b ^ 0x20;
        unescaping := false;
        if !Special(b) {
          BadEscapeSticks(bytes, i + 1);
          return None;
        }
      } else if b == ESCAPE {
        unescaping := true;
        continue;
      } else if b == FLAG {
        continue;
      }
      data := data + [b];
    }
    assert bytes[..|bytes|] == bytes;
    if |data| < 2 {
      return None;
    }
    var n := |data| - 2;
    if crc(data[..n]) != (data[n], data[n + 1]) {
      return None;
    }
    r := Some(data[..n]);
  }

  lemma {:induction false} BadEscapeSticks(s: seq<byte>, i: nat)
    requires i <= |s| && Unstuffed(s[..i]).BadEscape?
    ensures Unstuffed(s).BadEscape?
    decreases |s|
  {
    if i < |s| {
      assert s[..|s| - 1][..i] == s[..i];
      BadEscapeSticks(s[..|s| - 1], i);
    } else {
      assert s[..i] == s;
    }
  }

  /** What turns the bytes between two flags into a payload, if they are one. The deframer
      works with any. */
  type Decoder = seq<byte> -> Option<seq<byte>>

  function CheckedDecoder(crc: Checksum): Decoder {
    (s: seq<byte>) => Decoded(s, crc)
  }

  // ---------------------------------------------------------------- the deframer

  /** `buffer` holds the bytes since the last flag. */
  datatype Deframer = Deframer(buffer: seq<byte>, ignoring: bool)

  datatype Scanned = Scanned(state: Deframer, payloads: seq<seq<byte>>)

  /** What a flag makes of the bytes before it: nothing while resynchronising or between
      adjacent flags. */
  function Closed(d: Deframer, decode: Decoder): seq<seq<byte>> {
    if d.ignoring || d.buffer == [] || decode(d.buffer).None? then [] else [decode(d.buffer).value]
  }

  /** The deframer as an automaton that consumes one byte at a time. */
  function Consume(r: Scanned, b: byte, decode: Decoder): Scanned {
    if b == FLAG then Scanned(Deframer([], false), r.payloads + Closed(r.state, decode))
    else Scanned(Deframer(r.state.buffer + [b], r.state.ignoring), r.payloads)
  }

  function Scan(d: Deframer, s: seq<byte>, decode: Decoder): Scanned {
    if s == [] then Scanned(d, []) else Consume(Scan(d, s[..|s| - 1], decode), s[|s| - 1], decode)
  }

  /** A buffer this large without a flag means the stream is out of sync. */
  function Trimmed(d: Deframer): Deframer {
    if |d.buffer| > MAX_HDLC_BUFFER_SIZE then Deframer([], true) else d
  }

  /** Everything the buffer and a read hold, before any of it is discarded. */
  function Reach(d: Deframer, bytes: seq<byte>, decode: Decoder): Scanned {
    Scan(Deframer([], d.ignoring), d.buffer + bytes, decode)
  }

  /** One read from the link: the new state and the payloads it completed. */
  function Feed(d: Deframer, bytes: seq<byte>, decode: Decoder): Scanned {
    var r := Reach(d, bytes, decode);
    Scanned(Trimmed(r.state), r.payloads)
  }

  /** Going on from a scan. */
  function Then(r: Scanned, s: seq<byte>, decode: Decoder): Scanned {
    var q := Scan(r.state, s, decode);
    Scanned(q.state, r.payloads + q.payloads)
  }

  lemma ConsumeLater(p: seq<seq<byte>>, r: Scanned, b: byte, decode: Decoder)
    ensures Consume(Scanned(r.state, p + r.payloads), b, decode)
            == Scanned(Consume(r, b, decode).state, p + Consume(r, b, decode).payloads)
  {
    assert p + r.payloads + Closed(r.state, decode) == p + (r.payloads + Closed(r.state, decode));
  }

  lemma {:induction false} ScanSplits(d: Deframer, s: seq<byte>, t: seq<byte>, decode: Decoder)
    ensures Scan(d, s + t, decode) == Then(Scan(d, s, decode), t, decode)
    decreases |t|
  {
    var r := Scan(d, s, decode);
    if t == [] {
      assert s + t == s;
      assert r.payloads + [] == r.payloads;
    } else {
      var front, b := t[..|t| - 1], t[|t| - 1];
      ScanSplits(d, s, front, decode);
      assert (s + t)[..|s + t| - 1] == s + front;
      ConsumeLater(r.payloads, Scan(r.state, front, decode), b, decode);
    }
  }

  /** Bytes that are not flags only accumulate. */
  lemma {:induction false} PlainAccumulates(d: Deframer, s: seq<byte>, decode: Decoder)
    requires FLAG !in s
    ensures Scan(d, s, decode) == Scanned(Deframer(d.buffer + s, d.ignoring), [])
    decreases |s|
  {
    if s == [] {
      assert d.buffer + s == d.buffer;
    } else {
      var front, b := s[..|s| - 1], s[|s| - 1];
      assert b in s;
      PlainAccumulates(d, front, decode);
      assert d.buffer + front + [b] == d.buffer + s;
    }
  }

  lemma OneByte(d: Deframer, b: byte, decode: Decoder)
    ensures Scan(d, [b], decode) == Consume(Scanned(d, []), b, decode)
  {
    assert [b][..0] == [];
    assert Scan(d, [b][..0], decode) == Scanned(d, []);
  }

  /** Scanning through a flag, from an empty buffer. */
  lemma ScanToFlag(d: Deframer, rest: seq<byte>, decode: Decoder)
    ensures Scan(d, [FLAG] + rest, decode)
            == Then(Scanned(Deframer([], false), Closed(d, decode)), rest, decode)
  {
    ScanSplits(d, [FLAG], rest, decode);
    OneByte(d, FLAG, decode);
    assert [] + Closed(d, decode) == Closed(d, decode);
  }

  lemma {:induction false} ResidueHasNoFlag(d: Deframer, s: seq<byte>, decode: Decoder)
    requires FLAG !in d.buffer
    ensures FLAG !in Scan(d, s, decode).state.buffer
    decreases |s|
  {
    if s != [] {
      ResidueHasNoFlag(d, s[..|s| - 1], decode);
    }
  }

  /** What one read leaves is where the next one starts. */
  lemma Resume(d: Deframer, a: seq<byte>, b: seq<byte>, decode: Decoder)
    ensures var r := Reach(d, a, decode); Reach(d, a + b, decode) == Then(r, b, decode)
  {
    assert d.buffer + (a + b) == d.buffer + a + b;
    ScanSplits(Deframer([], d.ignoring), d.buffer + a, b, decode);
  }

  lemma ReachFromPlain(d: Deframer, b: seq<byte>, decode: Decoder)
    requires FLAG !in d.buffer
    ensures Reach(d, b, decode) == Scan(d, b, decode)
  {
    var start := Deframer([], d.ignoring);
    PlainAccumulates(start, d.buffer, decode);
    assert [] + d.buffer == d.buffer;
    ScanSplits(start, d.buffer, b, decode);
    assert [] + Scan(d, b, decode).payloads == Scan(d, b, decode).payloads;
  }

  // ---------------------------------------------------------------- the deframer as a split at flags

  /** The bytes after the last flag. */
  function Tail(s: seq<byte>): seq<byte> {
    if s == [] || s[|s| - 1] == FLAG then [] else Tail(s[..|s| - 1]) + [s[|s| - 1]]
  }

  /** The stretches that a flag ends, in order. */
  function Pieces(s: seq<byte>): seq<seq<byte>> {
    if s == [] then []
    else if s[|s| - 1] == FLAG then Pieces(s[..|s| - 1]) + [Tail(s[..|s| - 1])]
    else Pieces(s[..|s| - 1])
  }

  /** What a stretch is worth: adjacent flags hold nothing. */
  function Worth(decode: Decoder): Decoder {
    (piece: seq<byte>) => if piece == [] then None else decode(piece)
  }

  /** While resynchronising, the stretch up to the first flag is skipped. */
  function Heard(pieces: seq<seq<byte>>, ignoring: bool): seq<seq<byte>> {
    if ignoring && pieces != [] then pieces[1..] else pieces
  }

  lemma {:induction false} NoPieceNoFlag(s: seq<byte>)
    ensures Pieces(s) == [] <==> FLAG !in s
  {
    if s != [] {
      NoPieceNoFlag(s[..|s| - 1]);
      assert s == s[..|s| - 1] + [s[|s| - 1]];
    }
  }

  /** One more stretch is closed by a flag. */
  lemma ClosedIsWorth(pieces: seq<seq<byte>>, tail: seq<byte>, ignoring: bool, decode: Decoder)
    ensures Selected(Heard(pieces + [tail], ignoring), Worth(decode))
         == Selected(Heard(pieces, ignoring), Worth(decode))
            + Closed(Deframer(tail, ignoring && pieces == []), decode)
  {
    var f, kept := Worth(decode), Heard(pieces, ignoring);
    if ignoring && pieces == [] {
      assert Heard(pieces + [tail], ignoring) == [];
    } else {
      assert Heard(pieces + [tail], ignoring) == kept + [tail];
      SelectedConcat(kept, [tail], f);
      assert [tail][1..] == [];
      assert Selected([tail], f) == Singleton(f(tail)) + [];
    }
  }

  /** The deframer does no more and no less than split its bytes at the flags and decode the
      stretches between them. */
  lemma {:induction false} ScanIsSplit(ignoring: bool, s: seq<byte>, decode: Decoder)
    ensures Scan(Deframer([], ignoring), s, decode)
         == Scanned(Deframer(Tail(s), ignoring && FLAG !in s), Selected(Heard(Pieces(s), ignoring), Worth(decode)))
  {
    if s != [] {
      var front, b := s[..|s| - 1], s[|s| - 1];
      ScanIsSplit(ignoring, front, decode);
      assert s == front + [b];
      NoPieceNoFlag(front);
      ClosedIsWorth(Pieces(front), Tail(front), ignoring, decode);
    }
  }

  /** So a read delivers, in order, exactly the stretches between flags that decode, and keeps
      what follows the last flag. */
  lemma FeedIsSplit(d: Deframer, bytes: seq<byte>, decode: Decoder)
    ensures var s := d.buffer + bytes;
      Feed(d, bytes, decode)
      == Scanned(Trimmed(Deframer(Tail(s), d.ignoring && FLAG !in s)),
                 Selected(Heard(Pieces(s), d.ignoring), Worth(decode)))
  {
    ScanIsSplit(d.ignoring, d.buffer + bytes, decode);
  }

  lemma {:induction false} SelectedFrom<A, B>(s: seq<A>, f: A -> Option<B>, i: nat) returns (k: nat)
    requires i < |Selected(s, f)|
    ensures k < |s| && f(s[k]) == Some(Selected(s, f)[i])
  {
    var first := Singleton(f(s[0]));
    if i < |first| {
      k := 0;
    } else {
      var j := SelectedFrom(s[1..], f, i - |first|);
      k := j + 1;
    }
  }

  /** Nothing unchecked is ever delivered: every payload of a read stands, escaped and with its
      own check bytes behind it, in a stretch that a flag ends. */
  lemma DeliveredIsChecked(d: Deframer, bytes: seq<byte>, crc: Checksum, i: nat) returns (k: nat)
    requires i < |Feed(d, bytes, CheckedDecoder(crc)).payloads|
    ensures var pieces := Heard(Pieces(d.buffer + bytes), d.ignoring);
      && k < |pieces| && Unstuffed(pieces[k]).Read?
      && var p := Feed(d, bytes, CheckedDecoder(crc)).payloads[i];
         Unstuffed(pieces[k]).data == p + [crc(p).0, crc(p).1]
  {
    FeedIsSplit(d, bytes, CheckedDecoder(crc));
    var pieces := Heard(Pieces(d.buffer + bytes), d.ignoring);
    k := SelectedFrom(pieces, Worth(CheckedDecoder(crc)), i);
    var p := Feed(d, bytes, CheckedDecoder(crc)).payloads[i];
    assert Decoded(pieces[k], crc) == Some(p);
    DecodedIff(pieces[k], p, crc);
  }

  /** The buffer keeps 4096 bytes without a flag and discards one more. */
  lemma BufferLimit(bytes: seq<byte>, decode: Decoder)
    requires FLAG !in bytes
    ensures |bytes| <= 4096 ==> Feed(Deframer([], false), bytes, decode) == Scanned(Deframer(bytes, false), [])
    ensures |bytes| > 4096 ==> Feed(Deframer([], false), bytes, decode) == Scanned(Deframer([], true), [])
  {
    assert [] + bytes == bytes;
    PlainAccumulates(Deframer([], false), bytes, decode);
  }

  /** Chunking independence: two reads are worth one read of both, in payloads and in final
      state, as long as the first leaves no more than the buffer limit. */
  lemma TwoReads(d: Deframer, a: seq<byte>, b: seq<byte>, decode: Decoder)
    requires |Reach(d, a, decode).state.buffer| <= MAX_HDLC_BUFFER_SIZE
    ensures var first := Feed(d, a, decode);
      var second := Feed(first.state, b, decode);
      Feed(d, a + b, decode) == Scanned(second.state, first.payloads + second.payloads)
  {
    Resume(d, a, b, decode);
    ResidueHasNoFlag(Deframer([], d.ignoring), d.buffer + a, decode);
    ReachFromPlain(Reach(d, a, decode).state, b, decode);
  }

  function Joined(chunks: seq<seq<byte>>): seq<byte> {
    if chunks == [] then [] else chunks[0] + Joined(chunks[1..])
  }

  function FeedAll(d: Deframer, chunks: seq<seq<byte>>, decode: Decoder): Scanned
    decreases |chunks|
  {
    if chunks == [] then Scanned(d, [])
    else
      var first := Feed(d, chunks[0], decode);
      var rest := FeedAll(first.state, chunks[1..], decode);
      Scanned(rest.state, first.payloads + rest.payloads)
  }

  /** No read of the session leaves more than the buffer limit. */
  predicate Bounded(d: Deframer, chunks: seq<seq<byte>>, decode: Decoder)
    decreases |chunks|
  {
    chunks == [] || (|Reach(d, chunks[0], decode).state.buffer| <= MAX_HDLC_BUFFER_SIZE
                     && Bounded(Feed(d, chunks[0], decode).state, chunks[1..], decode))
  }

  /** However a stream is cut into reads, it decodes as if it had arrived in one. */
  lemma {:induction false} ChunkingIndependence(d: Deframer, chunks: seq<seq<byte>>, decode: Decoder)
    requires chunks != [] && Bounded(d, chunks, decode)
    ensures FeedAll(d, chunks, decode) == Feed(d, Joined(chunks), decode)
    decreases |chunks|
  {
    var rest := chunks[1..];
    var first := Feed(d, chunks[0], decode);
    if rest == [] {
      assert Joined(chunks) == chunks[0];
      assert first.payloads + [] == first.payloads;
    } else {
      ChunkingIndependence(first.state, rest, decode);
      TwoReads(d, chunks[0], Joined(rest), decode);
    }
  }

  // ---------------------------------------------------------------- past the buffer limit

  /** The payload that an over-long residue would have completed at the next flag of `b`. */
  function LostPayload(mid: Deframer, b: seq<byte>, decode: Decoder): seq<seq<byte>>
    decreases |b|
  {
    if b == [] then []
    else if b[0] == FLAG then Closed(mid, decode)
    else LostPayload(Deframer(mid.buffer + [b[0]], mid.ignoring), b[1..], decode)
  }

  /** It is what the residue and the bytes up to that flag decode to. */
  lemma {:induction false} LostPayloadIsClosed(mid: Deframer, plain: seq<byte>, rest: seq<byte>, decode: Decoder)
    requires FLAG !in plain
    ensures LostPayload(mid, plain + [FLAG] + rest, decode)
         == Closed(Deframer(mid.buffer + plain, mid.ignoring), decode)
    decreases |plain|
  {
    var b := plain + [FLAG] + rest;
    if plain == [] {
      assert mid.buffer + plain == mid.buffer;
    } else {
      assert b[1..] == plain[1..] + [FLAG] + rest;
      LostPayloadIsClosed(Deframer(mid.buffer + [plain[0]], mid.ignoring), plain[1..], rest, decode);
      assert mid.buffer + [plain[0]] + plain[1..] == mid.buffer + plain;
    }
  }

  /** Bytes after a discarded residue scan as the same bytes do after the residue, short of
      the payload it would have completed. */
  lemma {:induction false} DiscardLosesOnePayload(mid: Deframer, plain: Deframer, b: seq<byte>, decode: Decoder)
    requires plain.ignoring
    ensures Scan(mid, b, decode).payloads == LostPayload(mid, b, decode) + Scan(plain, b, decode).payloads
    decreases |b|
  {
    if b != [] {
      var rest := b[1..];
      assert b == [b[0]] + rest;
      ScanSplits(mid, [b[0]], rest, decode);
      ScanSplits(plain, [b[0]], rest, decode);
      OneByte(mid, b[0], decode);
      OneByte(plain, b[0], decode);
      if b[0] == FLAG {
        assert [] + Closed(mid, decode) == Closed(mid, decode);
        var late := Scan(Deframer([], false), rest, decode).payloads;
        assert [] + ([] + late) == late;
      } else {
        DiscardLosesOnePayload(Deframer(mid.buffer + [b[0]], mid.ignoring), Deframer(plain.buffer + [b[0]], true),
                               rest, decode);
      }
    }
  }

  /** Past the limit the residue is discarded with the first read, so the payloads agree
      exactly when the residue would not have become one anyway. */
  lemma OverlongPayloadsAgreeIff(d: Deframer, a: seq<byte>, b: seq<byte>, decode: Decoder)
    requires |Reach(d, a, decode).state.buffer| > MAX_HDLC_BUFFER_SIZE
    ensures var first := Feed(d, a, decode);
      Feed(d, a + b, decode).payloads == first.payloads + Feed(first.state, b, decode).payloads
      <==> LostPayload(Reach(d, a, decode).state, b, decode) == []
  {
    var r, resync := Reach(d, a, decode), Deframer([], true);
    Resume(d, a, b, decode);
    ReachFromPlain(resync, b, decode);
    DiscardLosesOnePayload(r.state, resync, b, decode);
    var lost, late := LostPayload(r.state, b, decode), Scan(resync, b, decode).payloads;
    assert |r.payloads + (lost + late)| == |r.payloads + late| + |lost|;
    assert lost == [] ==> lost + late == late;
  }

  /** A flag makes a scan forget where it started. */
  lemma {:induction false} FlagForgets(x: Deframer, y: Deframer, b: seq<byte>, decode: Decoder)
    requires FLAG in b
    ensures Scan(x, b, decode).state == Scan(y, b, decode).state
    decreases |b|
  {
    var front, last := b[..|b| - 1], b[|b| - 1];
    if last != FLAG {
      assert b == front + [last];
      FlagForgets(x, y, front, decode);
    }
  }

  /** Without a flag nothing closes, so nothing is lost. */
  lemma {:induction false} NoFlagLosesNothing(mid: Deframer, b: seq<byte>, decode: Decoder)
    requires FLAG !in b
    ensures LostPayload(mid, b, decode) == []
    decreases |b|
  {
    if b != [] {
      NoFlagLosesNothing(Deframer(mid.buffer + [b[0]], mid.ignoring), b[1..], decode);
    }
  }

  /** Past the limit two reads are worth one, in payloads and in final state, exactly when the
      discarded residue would not have become a payload at the next flag, or, short of a
      flag, when the second read is empty or is itself discarded. */
  lemma OverlongSplitAgreesIff(d: Deframer, a: seq<byte>, b: seq<byte>, decode: Decoder)
    requires |Reach(d, a, decode).state.buffer| > MAX_HDLC_BUFFER_SIZE
    ensures var first := Feed(d, a, decode);
      var second := Feed(first.state, b, decode);
      Feed(d, a + b, decode) == Scanned(second.state, first.payloads + second.payloads)
      <==> if FLAG in b then LostPayload(Reach(d, a, decode).state, b, decode) == []
           else b == [] || |b| > MAX_HDLC_BUFFER_SIZE
  {
    var r, resync := Reach(d, a, decode).state, Deframer([], true);
    OverlongPayloadsAgreeIff(d, a, b, decode);
    Resume(d, a, b, decode);
    ReachFromPlain(resync, b, decode);
    if FLAG in b {
      FlagForgets(r, resync, b, decode);
    } else {
      NoFlagLosesNothing(r, b, decode);
      PlainAccumulates(r, b, decode);
      PlainAccumulates(resync, b, decode);
      assert [] + b == b;
    }
  }

  // ---------------------------------------------------------------- sessions

  type Encoder = seq<byte> -> seq<byte>

  function CheckedEncoder(crc: Checksum): Encoder {
    (s: seq<byte>) => Encoded(s, crc)
  }

  /** The encoding is never empty, holds no flag, and decodes to what was encoded. */
  ghost predicate Inverts(encode: Encoder, decode: Decoder) {
    forall p :: encode(p) != [] && FLAG !in encode(p) && decode(encode(p)) == Some(p)
  }

  lemma CheckedCodecInverts(crc: Checksum)
    ensures Inverts(CheckedEncoder(crc), CheckedDecoder(crc))
  {
    forall p ensures CheckedEncoder(crc)(p) != [] && FLAG !in CheckedEncoder(crc)(p)
                     && CheckedDecoder(crc)(CheckedEncoder(crc)(p)) == Some(p) {
      EncodedRoundTrip(p, crc);
    }
  }

  /** A payload as the client writes it: flag, escaped body, flag. */
  function OnWire(payload: seq<byte>, encode: Encoder): seq<byte> {
    [FLAG] + encode(payload) + [FLAG]
  }

  function Stream(payloads: seq<seq<byte>>, encode: Encoder): seq<byte> {
    if payloads == [] then [] else OnWire(payloads[0], encode) + Stream(payloads[1..], encode)
  }

  lemma ScanEncoded(payload: seq<byte>, rest: seq<byte>, encode: Encoder, decode: Decoder)
    requires Inverts(encode, decode)
    ensures var clean := Deframer([], false);
      Scan(clean, encode(payload) + ([FLAG] + rest), decode) == Then(Scanned(clean, [payload]), rest, decode)
  {
    var clean, body := Deframer([], false), encode(payload);
    ScanSplits(clean, body, [FLAG] + rest, decode);
    PlainAccumulates(clean, body, decode);
    assert [] + body == body;
    ScanToFlag(Deframer(body, false), rest, decode);
    var later := Then(Scanned(clean, [payload]), rest, decode).payloads;
    assert [] + later == later;
  }

  lemma StreamUnfolds(payloads: seq<seq<byte>>, encode: Encoder)
    requires payloads != []
    ensures Stream(payloads, encode) == [FLAG] + (encode(payloads[0]) + ([FLAG] + Stream(payloads[1..], encode)))
  {
    var body, rest := encode(payloads[0]), Stream(payloads[1..], encode);
    assert [FLAG] + body + [FLAG] + rest == [FLAG] + (body + ([FLAG] + rest));
  }

  /** From a clean state a stream decodes to exactly the payloads that were written; from any
      other, the bytes before it may first close as one more payload. */
  lemma {:induction false} StreamDecodes(d: Deframer, payloads: seq<seq<byte>>, encode: Encoder, decode: Decoder)
    requires payloads != [] && Inverts(encode, decode)
    ensures Scan(d, Stream(payloads, encode), decode) == Scanned(Deframer([], false), Closed(d, decode) + payloads)
    decreases |payloads|
  {
    var clean, first, rest := Deframer([], false), payloads[0], Stream(payloads[1..], encode);
    StreamUnfolds(payloads, encode);
    ScanToFlag(d, encode(first) + ([FLAG] + rest), decode);
    ScanEncoded(first, rest, encode, decode);
    if |payloads| > 1 {
      StreamDecodes(clean, payloads[1..], encode, decode);
      assert [] + payloads[1..] == payloads[1..];
    }
    assert Then(Scanned(clean, [first]), rest, decode) == Scanned(clean, [first] + payloads[1..]);
    assert [first] + payloads[1..] == payloads;
  }

  /** Resynchronisation: from any state and after any garbage, a stream decodes to its
      payloads in order, as the tail of the output, and leaves the deframer clean. */
  lemma SessionAfterGarbage(d: Deframer, garbage: seq<byte>, payloads: seq<seq<byte>>, encode: Encoder, decode: Decoder)
    returns (junk: seq<seq<byte>>)
    requires payloads != [] && Inverts(encode, decode)
    ensures Feed(d, garbage + Stream(payloads, encode), decode) == Scanned(Deframer([], false), junk + payloads)
  {
    var r := Reach(d, garbage, decode);
    Resume(d, garbage, Stream(payloads, encode), decode);
    StreamDecodes(r.state, payloads, encode, decode);
    junk := r.payloads + Closed(r.state, decode);
    assert r.payloads + (Closed(r.state, decode) + payloads) == junk + payloads;
  }

  // ---------------------------------------------------------------- sessions in many reads

  /** Every body of the stream fits the buffer. */
  predicate Buffered(payloads: seq<seq<byte>>, encode: Encoder) {
    forall i :: 0 <= i < |payloads| ==> |encode(payloads[i])| <= MAX_HDLC_BUFFER_SIZE
  }

  /** Part way through the body of a frame only that part is buffered. */
  lemma WithinBody(d: Deframer, body: seq<byte>, n: nat, decode: Decoder)
    requires n <= |body| && FLAG !in body
    ensures Scan(d, [FLAG] + body[..n], decode).state == Deframer(body[..n], false)
  {
    BodyAfterFlag(d, body[..n], decode);
  }

  /** Past a frame the scan goes on from a clean state. */
  lemma PastBody(d: Deframer, body: seq<byte>, more: seq<byte>, decode: Decoder)
    requires FLAG !in body
    ensures Scan(d, [FLAG] + (body + ([FLAG] + more)), decode).state == Scan(Deframer([], false), more, decode).state
  {
    var clean := Deframer([], false);
    ScanToFlag(d, body + ([FLAG] + more), decode);
    ScanSplits(clean, body, [FLAG] + more, decode);
    PlainAccumulates(clean, body, decode);
    ScanToFlag(Deframer([] + body, false), more, decode);
  }

  /** Where a prefix of a frame and what follows it ends. */
  lemma CutFrame(body: seq<byte>, rest: seq<byte>, k: nat)
    requires 1 <= k <= 2 + |body| + |rest|
    ensures var s := [FLAG] + (body + ([FLAG] + rest));
      && |s| == 2 + |body| + |rest|
      && (k <= 1 + |body| ==> s[..k] == [FLAG] + body[..k - 1])
      && (k > 1 + |body| ==> s[..k] == [FLAG] + (body + ([FLAG] + rest[..k - 2 - |body|])))
  {
  }

  /** A cut inside a frame leaves part of its body; one after it leaves what follows. */
  lemma FrameResidue(d: Deframer, body: seq<byte>, rest: seq<byte>, k: nat, decode: Decoder)
    requires FLAG !in body && 1 <= k <= 2 + |body| + |rest|
    ensures var cut := Scan(d, ([FLAG] + (body + ([FLAG] + rest)))[..k], decode).state;
      if k <= 1 + |body| then |cut.buffer| <= |body|
      else cut == Scan(Deframer([], false), rest[..k - 2 - |body|], decode).state
  {
    CutFrame(body, rest, k);
    if k <= 1 + |body| {
      WithinBody(d, body, k - 1, decode);
    } else {
      PastBody(d, body, rest[..k - 2 - |body|], decode);
    }
  }

  /** Once its first flag has been read, a stream never leaves more than one body behind. */
  lemma {:induction false} StreamResidue(d: Deframer, payloads: seq<seq<byte>>, k: nat,
                                         encode: Encoder, decode: Decoder)
    requires Inverts(encode, decode) && Buffered(payloads, encode) && 1 <= k <= |Stream(payloads, encode)|
    ensures |Scan(d, Stream(payloads, encode)[..k], decode).state.buffer| <= MAX_HDLC_BUFFER_SIZE
    decreases |payloads|
  {
    var body, rest := encode(payloads[0]), Stream(payloads[1..], encode);
    StreamUnfolds(payloads, encode);
    FrameResidue(d, body, rest, k, decode);
    if k > 2 + |body| {
      StreamResidue(Deframer([], false), payloads[1..], k - 2 - |body|, encode, decode);
    }
  }

  lemma CutTwice(s: seq<byte>, k: nat, c: seq<byte>, more: seq<byte>)
    requires k <= |s| && s[k..] == c + more
    ensures k + |c| <= |s| && s[..k + |c|] == s[..k] + c && s[k + |c|..] == more
  {
    assert s == s[..k] + (c + more);
  }

  /** A read goes on from where the scan of what came before stopped. */
  lemma NextRead(start: Deframer, done: seq<byte>, c: seq<byte>, decode: Decoder)
    requires FLAG !in start.buffer
    ensures Reach(Scan(start, done, decode).state, c, decode).state == Scan(start, done + c, decode).state
  {
    ResidueHasNoFlag(start, done, decode);
    ReachFromPlain(Scan(start, done, decode).state, c, decode);
    ScanSplits(start, done, c, decode);
  }

  lemma ReadWithin(d: Deframer, c: seq<byte>, rest: seq<seq<byte>>, decode: Decoder)
    requires |Reach(d, c, decode).state.buffer| <= MAX_HDLC_BUFFER_SIZE
    requires Bounded(Reach(d, c, decode).state, rest, decode)
    ensures Bounded(d, [c] + rest, decode)
  {
    assert ([c] + rest)[1..] == rest;
  }

  /** The next read of a stream leaves what a scan of the stream so far leaves, which fits. */
  lemma NextOfStream(start: Deframer, payloads: seq<seq<byte>>, k: nat, c: seq<byte>, more: seq<byte>,
                     encode: Encoder, decode: Decoder)
    requires Inverts(encode, decode) && Buffered(payloads, encode) && FLAG !in start.buffer
    requires 1 <= k <= |Stream(payloads, encode)| && Stream(payloads, encode)[k..] == c + more
    ensures var s := Stream(payloads, encode);
      var next := Reach(Scan(start, s[..k], decode).state, c, decode).state;
      && k + |c| <= |s| && s[k + |c|..] == more
      && next == Scan(start, s[..k + |c|], decode).state && |next.buffer| <= MAX_HDLC_BUFFER_SIZE
  {
    var s := Stream(payloads, encode);
    CutTwice(s, k, c, more);
    NextRead(start, s[..k], c, decode);
    StreamResidue(start, payloads, k + |c|, encode, decode);
  }

  /** So the reads after that flag stay within the buffer. */
  lemma {:induction false} StreamTailIsBounded(start: Deframer, k: nat, chunks: seq<seq<byte>>,
                                               payloads: seq<seq<byte>>, encode: Encoder, decode: Decoder)
    requires Inverts(encode, decode) && Buffered(payloads, encode) && FLAG !in start.buffer
    requires 1 <= k <= |Stream(payloads, encode)| && Joined(chunks) == Stream(payloads, encode)[k..]
    ensures Bounded(Scan(start, Stream(payloads, encode)[..k], decode).state, chunks, decode)
    decreases |chunks|
  {
    if chunks != [] {
      var s, c := Stream(payloads, encode), chunks[0];
      NextOfStream(start, payloads, k, c, Joined(chunks[1..]), encode, decode);
      StreamTailIsBounded(start, k + |c|, chunks[1..], payloads, encode, decode);
      ReadWithin(Scan(start, s[..k], decode).state, c, chunks[1..], decode);
      assert chunks == [c] + chunks[1..];
    }
  }

  /** A session whose reads all stay within the buffer. */
  lemma BoundedSession(d: Deframer, chunks: seq<seq<byte>>, garbage: seq<byte>, payloads: seq<seq<byte>>,
                       encode: Encoder, decode: Decoder)
    returns (junk: seq<seq<byte>>)
    requires payloads != [] && Inverts(encode, decode)
    requires Joined(chunks) == garbage + Stream(payloads, encode) && Bounded(d, chunks, decode)
    ensures FeedAll(d, chunks, decode) == Scanned(Deframer([], false), junk + payloads)
  {
    StreamUnfolds(payloads, encode);
    assert chunks != [];
    ChunkingIndependence(d, chunks, decode);
    junk := SessionAfterGarbage(d, garbage, payloads, encode, decode);
  }

  /** The read that brings the first flag of the stream. */
  lemma FirstFlagIsBounded(d: Deframer, chunks: seq<seq<byte>>, garbage: seq<byte>, payloads: seq<seq<byte>>,
                           encode: Encoder, decode: Decoder)
    requires chunks != [] && |chunks[0]| > |garbage| && Inverts(encode, decode) && Buffered(payloads, encode)
    requires Joined(chunks) == garbage + Stream(payloads, encode)
    ensures Bounded(d, chunks, decode)
  {
    var s, k := Stream(payloads, encode), |chunks[0]| - |garbage|;
    assert chunks[0] == Joined(chunks)[..|chunks[0]|] == garbage + s[..k];
    assert Joined(chunks[1..]) == Joined(chunks)[|chunks[0]|..] == s[k..];
    var start := Reach(d, garbage, decode).state;
    Resume(d, garbage, s[..k], decode);
    ResidueHasNoFlag(Deframer([], d.ignoring), d.buffer + garbage, decode);
    StreamResidue(start, payloads, k, encode, decode);
    StreamTailIsBounded(start, k, chunks[1..], payloads, encode, decode);
  }

  /** Resynchronisation over any cutting of any garbage and a stream into reads, also where
      garbage without a flag overruns the buffer and is discarded: the stream decodes to its
      payloads in order, as the tail of the output. */
  lemma {:induction false} ChunkedSession(d: Deframer, chunks: seq<seq<byte>>, garbage: seq<byte>,
                                          payloads: seq<seq<byte>>, encode: Encoder, decode: Decoder)
    returns (junk: seq<seq<byte>>)
    requires payloads != [] && Inverts(encode, decode) && Buffered(payloads, encode)
    requires Joined(chunks) == garbage + Stream(payloads, encode)
    ensures FeedAll(d, chunks, decode) == Scanned(Deframer([], false), junk + payloads)
    decreases |chunks|
  {
    StreamUnfolds(payloads, encode);
    assert chunks != [];
    if |chunks[0]| > |garbage| {
      FirstFlagIsBounded(d, chunks, garbage, payloads, encode, decode);
      junk := BoundedSession(d, chunks, garbage, payloads, encode, decode);
    } else {
      var c, first := chunks[0], Feed(d, chunks[0], decode);
      assert c == Joined(chunks)[..|c|] == garbage[..|c|];
      assert Joined(chunks[1..]) == Joined(chunks)[|c|..] == garbage[|c|..] + Stream(payloads, encode);
      var later := ChunkedSession(first.state, chunks[1..], garbage[|c|..], payloads, encode, decode);
      junk := first.payloads + later;
      Regroup(first.payloads, later, payloads);
    }
  }

  /** A read that ends just before the closing flag of a longer body discards it. */
  lemma LongBodyIsDiscarded(before: seq<seq<byte>>, payload: seq<byte>, encode: Encoder, decode: Decoder)
    requires Inverts(encode, decode) && |encode(payload)| > MAX_HDLC_BUFFER_SIZE
    ensures Feed(Deframer([], false), Stream(before, encode) + ([FLAG] + encode(payload)), decode)
         == Scanned(Deframer([], true), before)
  {
    var clean, s, body := Deframer([], false), Stream(before, encode), encode(payload);
    CleanStream(before, encode, decode);
    ReachFromPlain(clean, s + ([FLAG] + body), decode);
    ScanSplits(clean, s, [FLAG] + body, decode);
    BodyAfterFlag(clean, body, decode);
    assert before + [] == before;
  }

  lemma BodyAfterFlag(d: Deframer, body: seq<byte>, decode: Decoder)
    requires FLAG !in body
    ensures Scan(d, [FLAG] + body, decode) == Scanned(Deframer(body, false), Closed(d, decode))
  {
    ScanToFlag(d, body, decode);
    PlainAccumulates(Deframer([], false), body, decode);
    assert [] + body == body;
    assert Closed(d, decode) + [] == Closed(d, decode);
  }

  lemma ResyncThenStream(after: seq<seq<byte>>, encode: Encoder, decode: Decoder)
    requires Inverts(encode, decode)
    ensures Feed(Deframer([], true), [FLAG] + Stream(after, encode), decode) == Scanned(Deframer([], false), after)
  {
    var resync, t := Deframer([], true), Stream(after, encode);
    CleanStream(after, encode, decode);
    ReachFromPlain(resync, [FLAG] + t, decode);
    ScanToFlag(resync, t, decode);
    assert [] + after == after;
  }

  lemma FeedTwo(d: Deframer, a: seq<byte>, b: seq<byte>, decode: Decoder)
    ensures var first := Feed(d, a, decode);
      var second := Feed(first.state, b, decode);
      FeedAll(d, [a, b], decode) == Scanned(second.state, first.payloads + second.payloads)
  {
    var first := Feed(d, a, decode);
    var second := Feed(first.state, b, decode);
    assert [a, b][1..] == [b] && [b][1..] == [];
    assert FeedAll(second.state, [b][1..], decode) == Scanned(second.state, []);
    assert FeedAll(first.state, [b], decode) == Scanned(second.state, second.payloads + []);
    assert second.payloads + [] == second.payloads;
  }

  /** The limit on bodies is exact: a longer one is lost when a read ends just before its
      closing flag, and only that one. */
  lemma LongBodyCanBeLost(before: seq<seq<byte>>, payload: seq<byte>, after: seq<seq<byte>>,
                          encode: Encoder, decode: Decoder)
    requires Inverts(encode, decode) && |encode(payload)| > MAX_HDLC_BUFFER_SIZE
    ensures var chunks := [Stream(before, encode) + ([FLAG] + encode(payload)), [FLAG] + Stream(after, encode)];
      FeedAll(Deframer([], false), chunks, decode) == Scanned(Deframer([], false), before + after)
  {
    LongBodyIsDiscarded(before, payload, encode, decode);
    ResyncThenStream(after, encode, decode);
    FeedTwo(Deframer([], false), Stream(before, encode) + ([FLAG] + encode(payload)), [FLAG] + Stream(after, encode),
            decode);
  }

  lemma CleanStream(payloads: seq<seq<byte>>, encode: Encoder, decode: Decoder)
    requires Inverts(encode, decode)
    ensures var clean := Deframer([], false); Scan(clean, Stream(payloads, encode), decode) == Scanned(clean, payloads)
  {
    if payloads != [] {
      StreamDecodes(Deframer([], false), payloads, encode, decode);
      assert [] + payloads == payloads;
    }
  }

  /** Such payloads exist: one of 4095 zero bytes, under any checksum. */
  lemma LongBodiesExist(crc: Checksum)
    ensures var payload := seq(4095, _ => 0 as byte);
      && |CheckedEncoder(crc)(payload)| > MAX_HDLC_BUFFER_SIZE
      && LostPayload(Deframer(CheckedEncoder(crc)(payload), false), [FLAG], CheckedDecoder(crc)) == [payload]
  {
    var payload := seq(4095, _ => 0 as byte);
    StuffedIsPlain(WithCheck(payload, crc));
    EncodedRoundTrip(payload, crc);
  }
}
