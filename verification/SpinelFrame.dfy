/** Spinel frames: the header byte, the command byte, the packed integers, and how a stream
    of HDLC payloads reads as a stream of frames. */
module SpinelFrames {
  import opened Prelude
  import opened Hdlc

  datatype Header = Header(flag: byte, networkLinkId: byte, transactionId: byte)

  datatype Frame = Frame(header: Header, command: byte, payload: seq<byte>)

  datatype Failure = TooShort(expected: nat, got: nat) | NotSpinel(flag: byte) | UnknownCommand(command: byte)

  datatype Parsed = Ok(frame: Frame) | Err(failure: Failure)

  /** The command enumeration has no gap. */
  const LAST_COMMAND: byte := 23
  const PROP_VALUE_IS: byte := 6

  // ---------------------------------------------------------------- frames

  function HeaderByte(h: Header): byte {
    (h.flag << 6) | (h.networkLinkId << 4) | h.transactionId
  }

  function HeaderOf(b: byte): Header {
    Header((b & 0xC0) >> 6, (b & 0x30) >> 4, b & 0x0F)
  }

  function FrameBytes(f: Frame): seq<byte> {
    [HeaderByte(f.header), f.command] + f.payload
  }

  function ParseFrame(bytes: seq<byte>): Parsed {
    if |bytes| < 3 then Err(TooShort(3, |bytes|))
    else
      var header := HeaderOf(bytes[0]);
      if header.flag != 2 then Err(NotSpinel(header.flag))
      else if bytes[1] > LAST_COMMAND then Err(UnknownCommand(bytes[1]))
      else Ok(Frame(header, bytes[1], bytes[2..]))
  }

  /** What a frame must be for the link to carry it. */
  predicate WellFormed(f: Frame) {
    && f.header.flag == 2 && f.header.networkLinkId <= 3 && f.header.transactionId <= 15
    && f.command <= LAST_COMMAND
    && f.payload != []
  }

  lemma HeaderPacks(h: Header)
    ensures HeaderOf(HeaderByte(h)) == h <==> h.flag <= 3 && h.networkLinkId <= 3 && h.transactionId <= 15
  {
  }

  lemma HeaderUnpacks(b: byte)
    ensures HeaderByte(HeaderOf(b)) == b
  {
  }

  /** Which bytes are a frame, and which error the others give: three at least, the first with
      its top bits 10, the second a command up to 23. */
  lemma ParsesIff(bytes: seq<byte>)
    ensures var r := ParseFrame(bytes);
      if |bytes| < 3 then r == Err(TooShort(3, |bytes|))
      else if !(0x80 <= bytes[0] <= 0xBF) then r.Err? && r.failure.NotSpinel?
      else if bytes[1] > 23 then r == Err(UnknownCommand(bytes[1]))
      else && r.Ok? && r.frame.command == bytes[1] && r.frame.payload == bytes[2..]
           && bytes[0] == 0x80 + 16 * r.frame.header.networkLinkId + r.frame.header.transactionId
           && r.frame.header.transactionId < 16
  {
    if |bytes| >= 3 {
      HeaderByteSplits(bytes[0]);
    }
  }

  lemma HeaderByteSplits(b: byte)
    ensures HeaderOf(b).flag == 2 <==> 0x80 <= b <= 0xBF
    ensures HeaderOf(b).flag == 2 ==> b == 0x80 + 16 * HeaderOf(b).networkLinkId + HeaderOf(b).transactionId
    ensures HeaderOf(b).transactionId < 16
  {
  }

  /** Exactly the well-formed frames survive the wire. */
  lemma FrameRoundTrip(f: Frame)
    ensures ParseFrame(FrameBytes(f)) == Ok(f) <==> WellFormed(f)
  {
    HeaderPacks(f.header);
    assert FrameBytes(f)[2..] == f.payload;
  }

  /** A frame that was read prints as the bytes it was read from, and is well formed. */
  lemma ParsedFramePrints(bytes: seq<byte>)
    requires ParseFrame(bytes).Ok?
    ensures WellFormed(ParseFrame(bytes).frame) && FrameBytes(ParseFrame(bytes).frame) == bytes
  {
    HeaderUnpacks(bytes[0]);
    FieldsAreNarrow(bytes[0]);
    assert bytes == [bytes[0], bytes[1]] + bytes[2..];
  }

  lemma FieldsAreNarrow(b: byte)
    ensures HeaderOf(b).networkLinkId <= 3 && HeaderOf(b).transactionId <= 15
  {
  }

  // ---------------------------------------------------------------- streams of frames

  function ReadFrame(bytes: seq<byte>): Option<Frame> {
    var r := ParseFrame(bytes);
    if r.Ok? then Some(r.frame) else None
  }

  /** The frames among the payloads; what does not parse is dropped. */
  function FramesOf(payloads: seq<seq<byte>>): seq<Frame> {
    Selected(payloads, ReadFrame)
  }

  function Bodies(frames: seq<Frame>): seq<seq<byte>> {
    if frames == [] then [] else [FrameBytes(frames[0])] + Bodies(frames[1..])
  }

  lemma {:induction false} BodiesReadBack(frames: seq<Frame>)
    requires forall i :: 0 <= i < |frames| ==> WellFormed(frames[i])
    ensures FramesOf(Bodies(frames)) == frames
  {
    if frames != [] {
      FrameRoundTrip(frames[0]);
      BodiesReadBack(frames[1..]);
      assert Bodies(frames)[1..] == Bodies(frames[1..]);
    }
  }

  /** The longest frame of the link, unescaped. */
  const SPINEL_FRAME_MAX_SIZE: nat := 1300

  lemma {:induction false} BodiesAre(frames: seq<Frame>, i: nat)
    requires i < |frames|
    ensures |Bodies(frames)| == |frames| && Bodies(frames)[i] == FrameBytes(frames[i])
  {
    if |frames| > 1 {
      BodiesAre(frames[1..], if i == 0 then 0 else i - 1);
    }
  }

  /** Session round trip: from any deframer state, after any garbage, over any cutting into
      reads, well-formed frames whose escaped form fits the buffer arrive in order as the last
      ones read, for any checksum. */
  lemma SessionRoundTrip(d: Deframer, chunks: seq<seq<byte>>, garbage: seq<byte>, frames: seq<Frame>, crc: Checksum)
    returns (junk: seq<Frame>)
    requires frames != [] && forall i :: 0 <= i < |frames| ==> WellFormed(frames[i])
    requires Buffered(Bodies(frames), CheckedEncoder(crc))
    requires Joined(chunks) == garbage + Stream(Bodies(frames), CheckedEncoder(crc))
    ensures var r := FeedAll(d, chunks, CheckedDecoder(crc));
      FramesOf(r.payloads) == junk + frames && r.state == Deframer([], false)
  {
    CheckedCodecInverts(crc);
    var noise := ChunkedSession(d, chunks, garbage, Bodies(frames), CheckedEncoder(crc), CheckedDecoder(crc));
    SelectedConcat(noise, Bodies(frames), ReadFrame);
    BodiesReadBack(frames);
    junk := FramesOf(noise);
  }

  /** Every frame within the link's own size limit fits the buffer. */
  lemma LinkFramesAreBuffered(frames: seq<Frame>, crc: Checksum)
    requires forall i :: 0 <= i < |frames| ==> |FrameBytes(frames[i])| <= 1300
    ensures Buffered(Bodies(frames), CheckedEncoder(crc))
  {
    BodiesCount(frames);
    forall i | 0 <= i < |Bodies(frames)| ensures |CheckedEncoder(crc)(Bodies(frames)[i])| <= MAX_HDLC_BUFFER_SIZE {
      BodiesAre(frames, i);
      StuffedIsPlain(WithCheck(Bodies(frames)[i], crc));
    }
  }

  lemma {:induction false} BodiesCount(frames: seq<Frame>)
    ensures |Bodies(frames)| == |frames|
  {
    if frames != [] {
      BodiesCount(frames[1..]);
    }
  }

  /** So any session of frames the link may carry is recovered. */
  lemma LinkSession(d: Deframer, chunks: seq<seq<byte>>, garbage: seq<byte>, frames: seq<Frame>, crc: Checksum)
    returns (junk: seq<Frame>)
    requires frames != []
    requires forall i :: 0 <= i < |frames| ==> WellFormed(frames[i]) && |FrameBytes(frames[i])| <= 1300
    requires Joined(chunks) == garbage + Stream(Bodies(frames), CheckedEncoder(crc))
    ensures var r := FeedAll(d, chunks, CheckedDecoder(crc));
      FramesOf(r.payloads) == junk + frames && r.state == Deframer([], false)
  {
    LinkFramesAreBuffered(frames, crc);
    junk := SessionRoundTrip(d, chunks, garbage, frames, crc);
  }
}
