/** IEEE 802.15.4 frames: what the parser reads and the serialiser writes. */
module MacFrames {
  import opened Prelude
  import opened FrameCheck

  /** `Bits` is a bit field that is cut short or names no value of its enumeration. */
  datatype ParseError = UnexpectedEnd | InvalidLength | Bits | InvalidFcs | Unsupported

  datatype Parsed<+T> = Ok(value: T) | Err(error: ParseError) {
    predicate IsFailure() {
      Err?
    }

    function PropagateFailure<U>(): Parsed<U>
      requires Err?
    {
      Err(error)
    }

    function Extract(): T
      requires Ok?
    {
      value
    }
  }

  const MAX_PHY_PACKET_SIZE: nat := 127

  datatype FrameType = BeaconType | DataType | AckType | CommandType

  datatype AddressingMode = Absent | Short | Long

  datatype FrameVersion = Ieee2003 | Ieee2006 | Ieee2015 | Reserved

  datatype FrameControl = FrameControl(
    frameType: FrameType, securityEnabled: bool, framePending: bool, ackRequest: bool,
    panIdCompression: bool, reserved1: bool, sequenceNumberSuppression: bool,
    informationElements: bool, destMode: AddressingMode, version: FrameVersion, srcMode: AddressingMode)

  /** An extended address is eight bytes in over-the-air order. */
  datatype Address = Nwk(nwk: bv16) | Eui64(bytes: seq<byte>)

  datatype Header = Header(
    control: FrameControl, sequenceNumber: Option<byte>,
    destPan: Option<bv16>, dest: Option<Address>, srcPan: Option<bv16>, src: Option<Address>)

  datatype Command =
    | AssociationRequest(capabilities: byte)
    | AssociationResponse(shortAddress: bv16, status: byte)
    | DisassociationNotification(reason: byte)
    | DataRequest
    | BeaconRequest
    | Unknown(raw: seq<byte>)

  /** Every bit of the superframe specification is a field, so it is kept as one word. */
  datatype Body =
    | Beacon(superframe: bv16, gts: byte, pendingAddresses: byte, beaconPayload: seq<byte>)
    | Data(payload: seq<byte>)
    | Ack
    | MacCommand(command: Command)

  datatype Frame = Frame(header: Header, body: Body, fcs: bv16)

  // ---------------------------------------------------------------- the frame control field

  function Flag(set_: bool, mask: byte): byte {
    if set_ then mask else 0
  }

  function TypeBits(t: FrameType): byte {
    match t case BeaconType => 0 case DataType => 1 case AckType => 2 case CommandType => 3
  }

  function TypeOf(bits: byte): FrameType {
    if bits == 0 then BeaconType else if bits == 1 then DataType else if bits == 2 then AckType else CommandType
  }

  function ModeBits(m: AddressingMode): byte {
    match m case Absent => 0 case Short => 2 case Long => 3
  }

  function ModeOf(bits: byte): AddressingMode {
    if bits == 0 then Absent else if bits == 2 then Short else Long
  }

  function VersionBits(v: FrameVersion): byte {
    match v case Ieee2003 => 0 case Ieee2006 => 1 case Ieee2015 => 2 case Reserved => 3
  }

  function VersionOf(bits: byte): FrameVersion {
    if bits == 0 then Ieee2003 else if bits == 1 then Ieee2006 else if bits == 2 then Ieee2015 else Reserved
  }

  /** Fields are packed from the least significant bit up. */
  function ControlLow(c: FrameControl): byte {
    TypeBits(c.frameType) | Flag(c.securityEnabled, 0x08) | Flag(c.framePending, 0x10)
    | Flag(c.ackRequest, 0x20) | Flag(c.panIdCompression, 0x40) | Flag(c.reserved1, 0x80)
  }

  function ControlHigh(c: FrameControl): byte {
    Flag(c.sequenceNumberSuppression, 0x01) | Flag(c.informationElements, 0x02)
    | (ModeBits(c.destMode) << 2) | (VersionBits(c.version) << 4) | (ModeBits(c.srcMode) << 6)
  }

  function ControlOf(lo: byte, hi: byte): FrameControl {
    FrameControl(TypeOf(lo & 0x07), lo & 0x08 != 0, lo & 0x10 != 0, lo & 0x20 != 0, lo & 0x40 != 0, lo & 0x80 != 0,
                 hi & 0x01 != 0, hi & 0x02 != 0, ModeOf((hi >> 2) & 3), VersionOf((hi >> 4) & 3), ModeOf(hi >> 6))
  }

  /** Frame types above 3 and addressing mode 1 do not exist. */
  predicate ControlDecodes(lo: byte, hi: byte) {
    lo & 0x07 < 4 && (hi >> 2) & 3 != 1 && hi >> 6 != 1
  }

  lemma ControlLowRoundTrip(lo: byte, hi: byte)
    requires ControlDecodes(lo, hi)
    ensures ControlLow(ControlOf(lo, hi)) == lo
  {
  }

  lemma ControlHighRoundTrip(lo: byte, hi: byte)
    requires ControlDecodes(lo, hi)
    ensures ControlHigh(ControlOf(lo, hi)) == hi
  {
  }

  lemma ControlRoundTrip(c: FrameControl)
    ensures ControlDecodes(ControlLow(c), ControlHigh(c))
    ensures ControlOf(ControlLow(c), ControlHigh(c)) == c
  {
  }

  // ---------------------------------------------------------------- the header

  function WordBytes(w: bv16): seq<byte> {
    [LoByte(w), HiByte(w)]
  }

  function PanBytes(pan: Option<bv16>): seq<byte> {
    if pan.Some? then WordBytes(pan.value) else []
  }

  function AddressBytes(a: Option<Address>): seq<byte> {
    match a
    case None => []
    case Some(Nwk(n)) => WordBytes(n)
    case Some(Eui64(bytes)) => bytes
  }

  function SequenceBytes(n: Option<byte>): seq<byte> {
    if n.Some? then [n.value] else []
  }

  predicate AddressFits(mode: AddressingMode, a: Option<Address>) {
    match mode
    case Absent => a.None?
    case Short => a.Some? && a.value.Nwk?
    case Long => a.Some? && a.value.Eui64? && |a.value.bytes| == 8
  }

  /** The header fields are the ones its frame control field announces; under PAN id
      compression the source PAN is the destination's, if there is one. */
  predicate HeaderFits(h: Header) {
    && h.sequenceNumber.None? == h.control.sequenceNumberSuppression
    && h.destPan.Some? == !h.control.destMode.Absent?
    && AddressFits(h.control.destMode, h.dest)
    && AddressFits(h.control.srcMode, h.src)
    && (if h.control.panIdCompression then h.srcPan == h.destPan
        else h.srcPan.Some? == !h.control.srcMode.Absent?)
  }

  lemma Reassociate(a: seq<byte>, b: seq<byte>, c: seq<byte>, d: seq<byte>, e: seq<byte>, f: seq<byte>, rest: seq<byte>)
    ensures a + (b + (c + (d + (e + f)))) + rest == a + (b + (c + (d + (e + (f + rest)))))
  {
    assert (e + f) + rest == e + (f + rest);
    assert (d + (e + f)) + rest == d + (e + f + rest);
    assert (c + (d + (e + f))) + rest == c + (d + (e + f) + rest);
    assert (b + (c + (d + (e + f)))) + rest == b + (c + (d + (e + f)) + rest);
  }

  /** The bytes of a header and of what follows it, field by field. */
  lemma HeaderFieldByField(h: Header, rest: seq<byte>)
    ensures HeaderBytes(h) + rest == ControlBytes(h.control) + (SequenceBytes(h.sequenceNumber) + (PanBytes(h.destPan)
            + (AddressBytes(h.dest) + (SourcePanBytes(h) + (AddressBytes(h.src) + rest)))))
  {
    Reassociate(ControlBytes(h.control), SequenceBytes(h.sequenceNumber), PanBytes(h.destPan), AddressBytes(h.dest),
                SourcePanBytes(h), AddressBytes(h.src), rest);
  }

  function ControlBytes(c: FrameControl): seq<byte> {
    [ControlLow(c), ControlHigh(c)]
  }

  function SourcePanBytes(h: Header): seq<byte> {
    if h.control.panIdCompression then [] else PanBytes(h.srcPan)
  }

  function HeaderBytes(h: Header): seq<byte> {
    ControlBytes(h.control) + (SequenceBytes(h.sequenceNumber) + (PanBytes(h.destPan) + (AddressBytes(h.dest)
    + (SourcePanBytes(h) + AddressBytes(h.src)))))
  }

  function ReadControl(s: seq<byte>): Parsed<(FrameControl, seq<byte>)> {
    if |s| < 2 || !ControlDecodes(s[0], s[1]) then Err(Bits)
    else Ok((ControlOf(s[0], s[1]), s[2..]))
  }

  function ReadSequence(suppressed: bool, s: seq<byte>): Parsed<(Option<byte>, seq<byte>)> {
    if suppressed then Ok((None, s)) else if s == [] then Err(UnexpectedEnd) else Ok((Some(s[0]), s[1..]))
  }

  function ReadPan(present: bool, s: seq<byte>): Parsed<(Option<bv16>, seq<byte>)> {
    if !present then Ok((None, s)) else if |s| < 2 then Err(UnexpectedEnd) else Ok((Some(Word(s[0], s[1])), s[2..]))
  }

  function ReadAddress(mode: AddressingMode, s: seq<byte>): Parsed<(Option<Address>, seq<byte>)> {
    match mode
    case Absent => Ok((None, s))
    case Short => if |s| < 2 then Err(UnexpectedEnd) else Ok((Some(Nwk(Word(s[0], s[1]))), s[2..]))
    case Long => if |s| < 8 then Err(UnexpectedEnd) else Ok((Some(Eui64(s[..8])), s[8..]))
  }

  function ReadDest(control: FrameControl, s: seq<byte>): Parsed<((Option<bv16>, Option<Address>), seq<byte>)> {
    var (pan, s1) :- ReadPan(!control.destMode.Absent?, s);
    var (dest, s2) :- ReadAddress(control.destMode, s1);
    Ok(((pan, dest), s2))
  }

  function ReadSource(control: FrameControl, destPan: Option<bv16>, s: seq<byte>)
    : Parsed<((Option<bv16>, Option<Address>), seq<byte>)>
  {
    var (pan, s1) :- ReadPan(!control.panIdCompression && !control.srcMode.Absent?, s);
    var (src, s2) :- ReadAddress(control.srcMode, s1);
    Ok((((if control.panIdCompression then destPan else pan), src), s2))
  }

  function ReadHeader(s: seq<byte>): Parsed<(Header, seq<byte>)> {
    var (control, s1) :- ReadControl(s);
    var (number, s2) :- ReadSequence(control.sequenceNumberSuppression, s1);
    var ((destPan, dest), s3) :- ReadDest(control, s2);
    var ((srcPan, src), s4) :- ReadSource(control, destPan, s3);
    Ok((Header(control, number, destPan, dest, srcPan, src), s4))
  }

  lemma ControlReadsBack(c: FrameControl, rest: seq<byte>)
    ensures ReadControl(ControlBytes(c) + rest) == Ok((c, rest))
  {
    ControlRoundTrip(c);
    assert (ControlBytes(c) + rest)[2..] == rest;
  }

  lemma SequenceReadsBack(n: Option<byte>, rest: seq<byte>)
    ensures ReadSequence(n.None?, SequenceBytes(n) + rest) == Ok((n, rest))
  {
    assert SequenceBytes(n) + rest == if n.Some? then [n.value] + rest else rest;
  }

  lemma PanReadsBack(pan: Option<bv16>, rest: seq<byte>)
    ensures ReadPan(pan.Some?, PanBytes(pan) + rest) == Ok((pan, rest))
  {
    assert (PanBytes(pan) + rest)[|PanBytes(pan)|..] == rest;
    if pan.Some? {
      WordRoundTrip(pan.value, 0, 0);
    }
  }

  lemma AddressReadsBack(mode: AddressingMode, a: Option<Address>, rest: seq<byte>)
    requires AddressFits(mode, a)
    ensures ReadAddress(mode, AddressBytes(a) + rest) == Ok((a, rest))
  {
    var bytes := AddressBytes(a);
    assert (bytes + rest)[..|bytes|] == bytes && (bytes + rest)[|bytes|..] == rest;
    if mode.Short? {
      WordRoundTrip(a.value.nwk, 0, 0);
    }
  }

  lemma DestReadsBack(h: Header, rest: seq<byte>)
    requires HeaderFits(h)
    ensures ReadDest(h.control, PanBytes(h.destPan) + (AddressBytes(h.dest) + rest)) == Ok(((h.destPan, h.dest), rest))
  {
    PanReadsBack(h.destPan, AddressBytes(h.dest) + rest);
    AddressReadsBack(h.control.destMode, h.dest, rest);
  }

  lemma SourceReadsBack(h: Header, rest: seq<byte>)
    requires HeaderFits(h)
    ensures ReadSource(h.control, h.destPan, SourcePanBytes(h) + (AddressBytes(h.src) + rest))
         == Ok(((h.srcPan, h.src), rest))
  {
    PanReadsBack(if h.control.panIdCompression then None else h.srcPan, AddressBytes(h.src) + rest);
    AddressReadsBack(h.control.srcMode, h.src, rest);
  }

  /** Writing a fitting header and reading it back returns it, and what follows it. */
  lemma HeaderRoundTrip(h: Header, rest: seq<byte>)
    requires HeaderFits(h)
    ensures ReadHeader(HeaderBytes(h) + rest) == Ok((h, rest))
  {
    var t3 := SourcePanBytes(h) + (AddressBytes(h.src) + rest);
    var t2 := PanBytes(h.destPan) + (AddressBytes(h.dest) + t3);
    var t1 := SequenceBytes(h.sequenceNumber) + t2;
    HeaderFieldByField(h, rest);
    ControlReadsBack(h.control, t1);
    SequenceReadsBack(h.sequenceNumber, t2);
    DestReadsBack(h, t3);
    SourceReadsBack(h, rest);
  }

  lemma ControlWasRead(s: seq<byte>)
    requires ReadControl(s).Ok?
    ensures var (c, rest) := ReadControl(s).value; s == ControlBytes(c) + rest
  {
    ControlLowRoundTrip(s[0], s[1]);
    ControlHighRoundTrip(s[0], s[1]);
  }

  lemma PanWasRead(present: bool, s: seq<byte>)
    requires ReadPan(present, s).Ok?
    ensures var (pan, rest) := ReadPan(present, s).value; s == PanBytes(pan) + rest && pan.Some? == present
  {
    if present {
      WordRoundTrip(0, s[0], s[1]);
    }
  }

  lemma AddressWasRead(mode: AddressingMode, s: seq<byte>)
    requires ReadAddress(mode, s).Ok?
    ensures var (a, rest) := ReadAddress(mode, s).value; s == AddressBytes(a) + rest && AddressFits(mode, a)
  {
    if mode.Short? {
      WordRoundTrip(0, s[0], s[1]);
    }
  }

  lemma DestWasRead(control: FrameControl, s: seq<byte>)
    requires ReadDest(control, s).Ok?
    ensures var ((pan, dest), rest) := ReadDest(control, s).value;
      && s == PanBytes(pan) + (AddressBytes(dest) + rest)
      && pan.Some? == !control.destMode.Absent? && AddressFits(control.destMode, dest)
  {
    PanWasRead(!control.destMode.Absent?, s);
    AddressWasRead(control.destMode, ReadPan(!control.destMode.Absent?, s).value.1);
  }

  lemma SourceWasRead(control: FrameControl, destPan: Option<bv16>, s: seq<byte>)
    requires ReadSource(control, destPan, s).Ok?
    ensures var ((pan, src), rest) := ReadSource(control, destPan, s).value;
      && s == (if control.panIdCompression then [] else PanBytes(pan)) + (AddressBytes(src) + rest)
      && (if control.panIdCompression then pan == destPan else pan.Some? == !control.srcMode.Absent?)
      && AddressFits(control.srcMode, src)
  {
    var carried := !control.panIdCompression && !control.srcMode.Absent?;
    PanWasRead(carried, s);
    AddressWasRead(control.srcMode, ReadPan(carried, s).value.1);
  }

  /** A header that was read fits, and writing it gives back the bytes it was read from. */
  lemma HeaderIsWhatWasRead(s: seq<byte>)
    requires ReadHeader(s).Ok?
    ensures var (h, rest) := ReadHeader(s).value; HeaderFits(h) && s == HeaderBytes(h) + rest
  {
    var (control, s1) := ReadControl(s).value;
    var (number, s2) := ReadSequence(control.sequenceNumberSuppression, s1).value;
    var ((destPan, dest), s3) := ReadDest(control, s2).value;
    ControlWasRead(s);
    assert s1 == SequenceBytes(number) + s2;
    DestWasRead(control, s2);
    SourceWasRead(control, destPan, s3);
    var (h, rest) := ReadHeader(s).value;
    HeaderFieldByField(h, rest);
  }

  // ---------------------------------------------------------------- the body

  predicate StatusDecodes(status: byte) {
    status <= 0x03 || status == 0x80
  }

  /** Decode the commands the stack knows; bytes past a command's fields are ignored, and a
      command that does not decode is kept verbatim. */
  function ReadCommand(s: seq<byte>): Command
    requires s != []
  {
    if s[0] == 0x01 && |s| >= 2 then AssociationRequest(s[1])
    else if s[0] == 0x02 && |s| >= 4 && StatusDecodes(s[3]) then AssociationResponse(Word(s[1], s[2]), s[3])
    else if s[0] == 0x03 && |s| >= 2 && s[1] <= 0x02 then DisassociationNotification(s[1])
    else if s[0] == 0x04 then DataRequest
    else if s[0] == 0x07 then BeaconRequest
    else Unknown(s)
  }

  function CommandBytes(c: Command): seq<byte> {
    match c
    case AssociationRequest(capabilities) => [0x01, capabilities]
    case AssociationResponse(address, status) => [0x02] + WordBytes(address) + [status]
    case DisassociationNotification(reason) => [0x03, reason]
    case DataRequest => [0x04]
    case BeaconRequest => [0x07]
    case Unknown(raw) => raw
  }

  predicate CommandFits(c: Command) {
    match c
    case AssociationResponse(_, status) => StatusDecodes(status)
    case DisassociationNotification(reason) => reason <= 0x02
    case Unknown(raw) => raw != [] && ReadCommand(raw) == c
    case _ => true
  }

  function ReadBody(control: FrameControl, s: seq<byte>): Parsed<Body> {
    match control.frameType
    case BeaconType =>
      if !control.version.Ieee2003? && !control.version.Ieee2006? then Err(Unsupported)
      else if |s| < 4 then Err(UnexpectedEnd)
      else Ok(Beacon(Word(s[0], s[1]), s[2], s[3], s[4..]))
    case DataType => Ok(Data(s))
    case AckType => Ok(Ack)
    case CommandType => if s == [] then Err(UnexpectedEnd) else Ok(MacCommand(ReadCommand(s)))
  }

  function BodyBytes(b: Body): seq<byte> {
    match b
    case Beacon(superframe, gts, pending, payload) => WordBytes(superframe) + [gts, pending] + payload
    case Data(payload) => payload
    case Ack => []
    case MacCommand(c) => CommandBytes(c)
  }

  predicate BodyFits(control: FrameControl, b: Body) {
    match b
    case Beacon(_, _, _, _) => control.frameType.BeaconType? && (control.version.Ieee2003? || control.version.Ieee2006?)
    case Data(_) => control.frameType.DataType?
    case Ack => control.frameType.AckType?
    case MacCommand(c) => control.frameType.CommandType? && CommandFits(c)
  }

  lemma CommandRoundTrip(c: Command)
    requires CommandFits(c)
    ensures CommandBytes(c) != [] && ReadCommand(CommandBytes(c)) == c
  {
    if c.AssociationResponse? {
      WordRoundTrip(c.shortAddress, 0, 0);
    }
  }

  lemma CommandIsPrefix(s: seq<byte>)
    requires s != []
    ensures CommandFits(ReadCommand(s)) && CommandBytes(ReadCommand(s)) <= s
  {
    if |s| >= 4 {
      WordRoundTrip(0, s[1], s[2]);
    }
  }

  lemma BodyRoundTrip(control: FrameControl, b: Body)
    requires BodyFits(control, b)
    ensures ReadBody(control, BodyBytes(b)) == Ok(b)
  {
    match b
    case Beacon(superframe, _, _, _) => WordRoundTrip(superframe, 0, 0);
    case MacCommand(c) => CommandRoundTrip(c);
    case _ =>
  }

  lemma BodyIsPrefix(control: FrameControl, s: seq<byte>)
    requires ReadBody(control, s).Ok?
    ensures var b := ReadBody(control, s).value; BodyFits(control, b) && BodyBytes(b) <= s
  {
    if control.frameType.CommandType? {
      CommandIsPrefix(s);
    } else if control.frameType.BeaconType? {
      WordRoundTrip(0, s[0], s[1]);
    }
  }

  // ---------------------------------------------------------------- whole frames

  function Parse(data: seq<byte>): Parsed<Frame> {
    if |data| < 4 then Err(UnexpectedEnd)
    else if |data| > MAX_PHY_PACKET_SIZE then Err(InvalidLength)
    else
      var n := |data| - 2;
      var fcs := Word(data[n], data[n + 1]);
      if Fcs(data[..n]) != fcs then Err(InvalidFcs)
      else
        var (header, rest) :- ReadHeader(data[..n]);
        var body :- ReadBody(header.control, rest);
        Ok(Frame(header, body, fcs))
  }

  function WithFcs(data: seq<byte>): seq<byte> {
    data + WordBytes(Fcs(data))
  }

  function ParseWithoutFcs(data: seq<byte>): Parsed<Frame> {
    Parse(WithFcs(data))
  }

  function Bytes(f: Frame): seq<byte> {
    HeaderBytes(f.header) + BodyBytes(f.body)
  }

  predicate Fits(f: Frame) {
    HeaderFits(f.header) && BodyFits(f.header.control, f.body)
  }

  /** The parser: a cursor over the remaining bytes, advanced field by field. */
  method FromBytes(data: seq<byte>) returns (r: Parsed<Frame>)
    ensures r == Parse(data)
  {
    if |data| < 2 + 2 {
      return Err(UnexpectedEnd);
    }
    if |data| > MAX_PHY_PACKET_SIZE {
      return Err(InvalidLength);
    }
    var fcs := Word(data[|data| - 2], data[|data| - 1]);
    var remaining := data[..|data| - 2];
    var computed := ComputeFcs(remaining);
    if computed != fcs {
      return Err(InvalidFcs);
    }
    var parsed :- HeaderFromBytes(remaining);
    remaining := parsed.1;
    var body :- ReadBody(parsed.0.control, remaining);
    r := Ok(Frame(parsed.0, body, fcs));
  }

  method HeaderFromBytes(s: seq<byte>) returns (r: Parsed<(Header, seq<byte>)>)
    ensures r == ReadHeader(s)
  {
    var first :- ReadControl(s);
    var control, remaining := first.0, first.1;

    var number: Option<byte> := None;
    if !control.sequenceNumberSuppression {
      if remaining == [] {
        return Err(UnexpectedEnd);
      }
      number, remaining := Some(remaining[0]), remaining[1..];
    }

    var destPan: Option<bv16>, dest: Option<Address> := None, None;
    if control.destMode != Absent {
      var pan :- ReadPan(true, remaining);
      var address :- ReadAddress(control.destMode, pan.1);
      destPan, dest, remaining := pan.0, address.0, address.1;
    }

    var srcPan := destPan;
    if !control.panIdCompression {
      var pan :- ReadPan(control.srcMode != Absent, remaining);
      srcPan, remaining := pan.0, pan.1;
    }

    var address :- ReadAddress(control.srcMode, remaining);
    r := Ok((Header(control, number, destPan, dest, srcPan, address.0), address.1));
  }

  /** The serialiser: a vector that grows field by field. */
  method ToBytesWithoutFcs(f: Frame) returns (data: seq<byte>)
    ensures data == Bytes(f)
  {
    var h := f.header;
    ghost var a, b, c := ControlBytes(h.control), SequenceBytes(h.sequenceNumber), PanBytes(h.destPan);
    ghost var d, e, g := AddressBytes(h.dest), SourcePanBytes(h), AddressBytes(h.src);
    data := ControlBytes(h.control);
    if h.sequenceNumber.Some? {
      data := data + [h.sequenceNumber.value];
    }
    assert data == a + b;
    if h.destPan.Some? {
      data := data + WordBytes(h.destPan.value);
    }
    assert data == a + b + c;
    data := data + AddressBytes(h.dest);
    if !h.control.panIdCompression && h.srcPan.Some? {
      data := data + WordBytes(h.srcPan.value);
    }
    assert data == a + b + c + d + e;
    data := data + AddressBytes(h.src);
    LeftToRight(a, b, c, d, e, g);
    data := data + BodyBytes(f.body);
  }

  lemma LeftToRight(a: seq<byte>, b: seq<byte>, c: seq<byte>, d: seq<byte>, e: seq<byte>, f: seq<byte>)
    ensures a + b + c + d + e + f == a + (b + (c + (d + (e + f))))
  {
  }

  /** Printing then parsing: every fitting frame that fits a radio packet is recovered from
      its bytes, with the checksum of those bytes. */
  lemma PrintThenParse(f: Frame)
    requires Fits(f) && |Bytes(f)| <= 125
    ensures ParseWithoutFcs(Bytes(f)) == Ok(f.(fcs := Fcs(Bytes(f))))
  {
    var once := Bytes(f);
    var n := |once|;
    assert WithFcs(once)[..n] == once;
    WordRoundTrip(Fcs(once), 0, 0);
    HeaderRoundTrip(f.header, BodyBytes(f.body));
    BodyRoundTrip(f.header.control, f.body);
  }

  /** Parsing then printing: a parsed frame fits, and prints as a prefix of the bytes it was
      parsed from. */
  lemma ParseThenPrint(data: seq<byte>)
    requires Parse(data).Ok?
    ensures var f := Parse(data).value; Fits(f) && Bytes(f) <= data[..|data| - 2]
  {
    var s := data[..|data| - 2];
    var (header, rest) := ReadHeader(s).value;
    HeaderIsWhatWasRead(s);
    BodyIsPrefix(header.control, rest);
  }

  /** Re-serialising any input that parses yields no more than its own length, and parses to
      the same frame up to the checksum. */
  lemma CodecFixedPoint(data: seq<byte>)
    requires ParseWithoutFcs(data).Ok?
    ensures var f := ParseWithoutFcs(data).value;
      && Bytes(f) <= data
      && ParseWithoutFcs(Bytes(f)) == Ok(f.(fcs := Fcs(Bytes(f))))
      && Bytes(ParseWithoutFcs(Bytes(f)).value) == Bytes(f)
  {
    ParseThenPrint(WithFcs(data));
    assert WithFcs(data)[..|data|] == data;
    PrintThenParse(ParseWithoutFcs(data).value);
  }

  lemma ChecksItself(data: seq<byte>)
    requires |data| >= 2
    ensures var n := |data| - 2; Fcs(data) == 0 <==> Fcs(data[..n]) == Word(data[n], data[n + 1])
  {
    var n := |data| - 2;
    assert data == data[..n] + [data[n], data[n + 1]];
    ResidueIsZero(data[..n], data[n], data[n + 1]);
  }

  /** A frame that arrived intact is refused once any one of its octets is changed. */
  lemma CorruptFrameIsRefused(head: seq<byte>, a: byte, c: byte, tail: seq<byte>)
    requires Parse(head + [a] + tail).Ok? && a != c
    ensures Parse(head + [c] + tail) == Err(InvalidFcs)
  {
    ChecksItself(head + [a] + tail);
    ChecksItself(head + [c] + tail);
    CorruptOctetIsDetected(head, a, c, tail);
  }

  // ---------------------------------------------------------------- the bytes themselves

  /** A word is sent low octet first. */
  lemma WordsAreLittleEndian()
    ensures WordBytes(0x1234) == [0x34, 0x12] && Word(0x34, 0x12) == 0x1234
  {
  }

  /** The first control octet, added up: the frame type, then one bit a flag. */
  lemma ControlLowIs(c: FrameControl)
    ensures ControlLow(c)
         == (match c.frameType case BeaconType => 0 case DataType => 1 case AckType => 2 case CommandType => 3)
            + (if c.securityEnabled then 8 else 0) + (if c.framePending then 16 else 0)
            + (if c.ackRequest then 32 else 0) + (if c.panIdCompression then 64 else 0)
            + (if c.reserved1 then 128 else 0)
  {
  }

  /** The second control octet, added up: two flags, the destination's addressing mode, the
      version, and the source's addressing mode. */
  lemma ControlHighIs(c: FrameControl)
    ensures ControlHigh(c)
         == (if c.sequenceNumberSuppression then 1 else 0) + (if c.informationElements then 2 else 0)
            + (match c.destMode case Absent => 0 case Short => 8 case Long => 12)
            + (match c.version case Ieee2003 => 0 case Ieee2006 => 16 case Ieee2015 => 32 case Reserved => 48)
            + (match c.srcMode case Absent => 0 case Short => 128 case Long => 192)
  {
  }

  /** Two control octets are read if and only if they are the octets of a control field. */
  lemma ControlDecodesIff(lo: byte, hi: byte)
    ensures ControlDecodes(lo, hi) <==> exists c :: ControlBytes(c) == [lo, hi]
  {
    if ControlDecodes(lo, hi) {
      ControlLowRoundTrip(lo, hi);
      ControlHighRoundTrip(lo, hi);
      assert ControlBytes(ControlOf(lo, hi)) == [lo, hi];
    }
    if c :| ControlBytes(c) == [lo, hi] {
      ControlRoundTrip(c);
      assert ControlBytes(c)[0] == lo && ControlBytes(c)[1] == hi;
    }
  }

  function PartSize(mode: AddressingMode): nat {
    match mode case Absent => 0 case Short => 2 case Long => 8
  }

  /** Six parts after one another can each be cut out again. */
  lemma CutOut(a: seq<byte>, b: seq<byte>, c: seq<byte>, d: seq<byte>, e: seq<byte>, f: seq<byte>)
    ensures var s := a + (b + (c + (d + (e + f))));
      var (i, j, k, l) := (|a| + |b|, |a| + |b| + |c|, |a| + |b| + |c| + |d|, |a| + |b| + |c| + |d| + |e|);
      && |s| == l + |f| && s[..|a|] == a && s[|a|..i] == b && s[i..j] == c
      && s[j..k] == d && s[k..l] == e && s[l..] == f
  {
  }

  lemma AddressSize(mode: AddressingMode, a: Option<Address>)
    requires AddressFits(mode, a)
    ensures |AddressBytes(a)| == PartSize(mode)
  {
  }

  /** Where a fitting header has its fields: the sequence number third if there is one; then
      destination PAN and address; then the source PAN, unless compressed, and address. */
  lemma HeaderLayout(h: Header)
    requires HeaderFits(h)
    ensures var b := HeaderBytes(h);
      var dest := if h.sequenceNumber.Some? then 3 else 2;
      var src := dest + if h.destPan.Some? then 2 + PartSize(h.control.destMode) else 0;
      var address := src + if h.control.panIdCompression || h.control.srcMode.Absent? then 0 else 2;
      && |b| == address + PartSize(h.control.srcMode)
      && b[..2] == [ControlLow(h.control), ControlHigh(h.control)]
      && (h.sequenceNumber.Some? ==> b[2] == h.sequenceNumber.value)
      && (h.destPan.Some? ==>
            b[dest..dest + 2] == WordBytes(h.destPan.value) && b[dest + 2..src] == AddressBytes(h.dest))
      && (address == src + 2 ==> b[src..address] == WordBytes(h.srcPan.value))
      && b[address..] == AddressBytes(h.src)
  {
    AddressSize(h.control.destMode, h.dest);
    AddressSize(h.control.srcMode, h.src);
    var number := SequenceBytes(h.sequenceNumber);
    CutOut(ControlBytes(h.control), number, PanBytes(h.destPan), AddressBytes(h.dest), SourcePanBytes(h),
           AddressBytes(h.src));
    var b := HeaderBytes(h);
    assert h.sequenceNumber.Some? ==> b[2..3] == number && b[2..3][0] == b[2];
  }

  /** Where a body has its fields: a beacon opens with its superframe specification, its GTS
      octet and its pending addresses, a command with its identifier. */
  lemma BodyLayout(b: Body)
    ensures var s := BodyBytes(b);
      match b
      case Beacon(superframe, gts, pending, payload) =>
        |s| >= 4 && s[..2] == WordBytes(superframe) && s[2] == gts && s[3] == pending && s[4..] == payload
      case MacCommand(AssociationRequest(capabilities)) => s == [1, capabilities]
      case MacCommand(AssociationResponse(address, status)) =>
        |s| == 4 && s[0] == 2 && s[1..3] == WordBytes(address) && s[3] == status
      case MacCommand(DisassociationNotification(reason)) => s == [3, reason]
      case MacCommand(DataRequest) => s == [4]
      case MacCommand(BeaconRequest) => s == [7]
      case _ => true
  {
  }

  /** Exactly what the parser takes: 4 to 127 octets that check, and that begin with a frame. */
  lemma ParsesIff(data: seq<byte>)
    ensures Parse(data).Ok?
            <==> && 4 <= |data| <= 127 && Fcs(data) == 0
                 && exists f :: Fits(f) && Bytes(f) <= data[..|data| - 2]
  {
    if 4 <= |data| <= 127 {
      ChecksItself(data);
    }
    if Parse(data).Ok? {
      ParseThenPrint(data);
    } else if 4 <= |data| <= 127 && Fcs(data) == 0 {
      forall f | Fits(f) ensures !(Bytes(f) <= data[..|data| - 2]) {
        if Bytes(f) <= data[..|data| - 2] {
          PrefixParses(data, f);
        }
      }
    }
  }

  lemma PrefixParses(data: seq<byte>, f: Frame)
    requires 4 <= |data| <= 127 && Fcs(data) == 0 && Fits(f) && Bytes(f) <= data[..|data| - 2]
    ensures Parse(data).Ok? && Parse(data).value.header == f.header
  {
    ChecksItself(data);
    var s, h, b := data[..|data| - 2], HeaderBytes(f.header), BodyBytes(f.body);
    var rest := s[|h|..];
    assert s == h + rest;
    assert b <= rest;
    HeaderRoundTrip(f.header, rest);
    BodyPrefixReads(f.header.control, f.body, rest);
  }

  lemma BodyPrefixReads(control: FrameControl, b: Body, s: seq<byte>)
    requires BodyFits(control, b) && BodyBytes(b) <= s
    ensures ReadBody(control, s).Ok?
  {
    if b.MacCommand? {
      CommandRoundTrip(b.command);
    }
  }

  /** What is too short, too long or damaged is refused as such, in that order. */
  lemma RefusedAs(data: seq<byte>)
    ensures |data| < 4 ==> Parse(data) == Err(UnexpectedEnd)
    ensures |data| > 127 ==> Parse(data) == Err(InvalidLength)
    ensures 4 <= |data| <= 127 && Fcs(data) != 0 ==> Parse(data) == Err(InvalidFcs)
  {
    if 4 <= |data| <= 127 {
      ChecksItself(data);
    }
  }

  /** Association answers carry one of five statuses and disassociations one of three reasons;
      anything else is kept verbatim. */
  lemma KnownStatuses(lo: byte, hi: byte, x: byte)
    ensures ReadCommand([0x02, lo, hi, x])
         == (if x == 0 || x == 1 || x == 2 || x == 3 || x == 0x80 then AssociationResponse(Word(lo, hi), x)
             else Unknown([0x02, lo, hi, x]))
    ensures ReadCommand([0x03, x])
         == (if x == 0 || x == 1 || x == 2 then DisassociationNotification(x) else Unknown([0x03, x]))
  {
  }

  lemma KnownChecksum()
    ensures Fcs([0x02, 0x00, 0xD1]) == 0x72BC
  {
    var one: seq<byte>, two: seq<byte> := [0x02], [0x02, 0x00];
    FcsAppend([], 0x02);
    assert [] + one == one;
    assert Fcs(one) == 0x2312;
    FcsAppend(one, 0x00);
    assert one + [0x00] == two;
    assert Fcs(two) == 0x33B0;
    FcsAppend(two, 0xD1);
    assert two + [0xD1] == [0x02, 0x00, 0xD1];
  }

  /** An acknowledgement for sequence number 209, as it is on the air. */
  lemma KnownAck()
    ensures Parse([0x02, 0x00, 0xD1, 0xBC, 0x72])
         == Ok(Frame(Header(FrameControl(AckType, false, false, false, false, false, false, false,
                                         Absent, Ieee2003, Absent),
                            Some(0xD1), None, None, None, None),
                     Ack, 0x72BC))
  {
    KnownChecksum();
    var data: seq<byte> := [0x02, 0x00, 0xD1, 0xBC, 0x72];
    assert data[..3] == [0x02, 0x00, 0xD1];
    assert Word(0xBC, 0x72) == 0x72BC;
    var c := ControlOf(0x02, 0x00);
    var number: seq<byte> := [0xD1];
    assert ReadControl(data[..3]) == Ok((c, number));
    assert number[1..] == [];
    assert ReadSequence(false, number) == Ok((Some(0xD1), []));
    assert ReadHeader(data[..3]) == Ok((Header(c, Some(0xD1), None, None, None, None), []));
  }

  /** A beacon request to all, as it is on the air. */
  lemma KnownBeaconRequest()
    ensures ReadHeader([0x03, 0x08, 0x6D, 0xFF, 0xFF, 0xFF, 0xFF, 0x07])
         == Ok((Header(FrameControl(CommandType, false, false, false, false, false, false, false,
                                    Short, Ieee2003, Absent),
                       Some(0x6D), Some(0xFFFF), Some(Nwk(0xFFFF)), None, None), [0x07]))
    ensures ReadCommand([0x07]) == BeaconRequest
  {
  }

  /** The control octets of a data frame between short addresses in one PAN. */
  lemma KnownControl()
    ensures ControlOf(0x61, 0x88)
         == FrameControl(DataType, false, false, true, true, false, false, false, Short, Ieee2003, Short)
  {
  }
}
