/** The host side of the Spinel link: one object that deframes what the serial port delivers,
    hands out transaction ids and routes inbound frames to the requests that wait for them. */
module SpinelProtocols {
  import opened Prelude
  import opened Hdlc
  import opened SpinelFrames
  import opened Transactions
  import PackedIntegers

  // ---------------------------------------------------------------- what a read does

  datatype Served = Served(link: Deframer, pending: Pending, routed: seq<Routed>)

  /** One read from the port: deframed, parsed and routed. */
  function Serve(link: Deframer, pending: Pending, bytes: seq<byte>, decode: Decoder, known: Known): Served {
    var r := Feed(link, bytes, decode);
    var q := RouteAll(pending, FramesOf(r.payloads), known);
    Served(r.state, q.0, q.1)
  }

  /** Routing does not depend on how the bytes were cut into reads either. */
  lemma ServingIsChunkIndependent(link: Deframer, pending: Pending, a: seq<byte>, b: seq<byte>,
                                  decode: Decoder, known: Known)
    requires |Reach(link, a, decode).state.buffer| <= MAX_HDLC_BUFFER_SIZE
    ensures var first := Serve(link, pending, a, decode, known);
      var second := Serve(first.link, first.pending, b, decode, known);
      Serve(link, pending, a + b, decode, known)
      == Served(second.link, second.pending, first.routed + second.routed)
  {
    TwoReads(link, a, b, decode);
    var first := Feed(link, a, decode);
    var second := Feed(first.state, b, decode);
    SelectedConcat(first.payloads, second.payloads, ReadFrame);
    RouteAllConcat(pending, FramesOf(first.payloads), FramesOf(second.payloads), known);
  }

  /** The buffer up to its first flag closes as a payload or as nothing. */
  lemma FlagCloses(buffer: seq<byte>, ignoring: bool, index: nat, decode: Decoder)
    requires index < |buffer| && buffer[index] == FLAG && FLAG !in buffer[..index]
    ensures var whole := Reach(Deframer(buffer, ignoring), [], decode);
      var rest := Reach(Deframer(buffer[index + 1..], false), [], decode);
      whole == Scanned(rest.state, Closed(Deframer(buffer[..index], ignoring), decode) + rest.payloads)
  {
    var start, before, after := Deframer([], ignoring), buffer[..index], buffer[index + 1..];
    assert buffer + [] == before + ([FLAG] + after);
    assert after + [] == after;
    ScanSplits(start, before, [FLAG] + after, decode);
    PlainAccumulates(start, before, decode);
    assert [] + before == before;
    ScanToFlag(Deframer(before, ignoring), after, decode);
    var p := Closed(Deframer(before, ignoring), decode) + Scan(Deframer([], false), after, decode).payloads;
    assert [] + p == p;
  }

  lemma NoFlagNoPayload(d: Deframer, decode: Decoder)
    requires FLAG !in d.buffer
    ensures Reach(d, [], decode) == Scanned(d, [])
  {
    assert d.buffer + [] == d.buffer;
    PlainAccumulates(Deframer([], d.ignoring), d.buffer, decode);
    assert [] + d.buffer == d.buffer;
  }

  // ---------------------------------------------------------------- the object

  class SpinelProtocol {
    const crc: Checksum
    const known: Known
    var buffer: seq<byte>
    var ignoringUntilNextFlag: bool
    var nextTid: nat
    var pending: Pending
    /** How many requests were made so far; names the next one. */
    var made: nat

    ghost predicate Valid()
      reads this
    {
      Sound(Session(nextTid, pending, made, []))
    }

    function Link(): Deframer
      reads this
    {
      Deframer(buffer, ignoringUntilNextFlag)
    }

    constructor (crc: Checksum, known: Known)
      ensures Valid() && this.crc == crc && this.known == known
      ensures Link() == Deframer([], true)
      ensures Session(nextTid, pending, made, []) == Opened
    {
      this.crc, this.known := crc, known;
      buffer, ignoringUntilNextFlag := [], true;
      nextTid, pending, made := 1, map[], 0;
    }

    /** Takes the next payload out of the buffer; without one, leaves what the end of a read
        leaves. */
    method NextFrameInto() returns (payload: Option<seq<byte>>)
      modifies this`buffer, this`ignoringUntilNextFlag
      ensures var before := Reach(old(Link()), [], CheckedDecoder(crc));
        if payload.Some? then
          var after := Reach(Link(), [], CheckedDecoder(crc));
          before == Scanned(after.state, [payload.value] + after.payloads) && |buffer| < old(|buffer|)
        else before.payloads == [] && Link() == Trimmed(before.state)
    {
      ghost var decode := CheckedDecoder(crc);
      ghost var whole := Reach(Link(), [], decode);
      while true
        invariant Reach(Link(), [], decode) == whole && |buffer| <= old(|buffer|)
        decreases |buffer|
      {
        var index := 0;
        while index < |buffer| && buffer[index] != FLAG
          invariant index <= |buffer| && FLAG !in buffer[..index]
        {
          index := index + 1;
        }
        if index == |buffer| {
          assert buffer[..index] == buffer;
          NoFlagNoPayload(Link(), decode);
          if |buffer| > MAX_HDLC_BUFFER_SIZE {
            buffer := [];
            ignoringUntilNextFlag := true;
          }
          return None;
        }
        FlagCloses(buffer, ignoringUntilNextFlag, index, decode);
        var ignoring := ignoringUntilNextFlag;
        ignoringUntilNextFlag := false;
        payload := None;
        if !ignoring && index > 0 {
          payload := UnescapeInto(buffer[..index], crc);
        }
        buffer := buffer[index + 1..];
        if payload.Some? {
          return;
        }
      }
    }

    /** Deframes a read: the frames of exactly the payloads it completed. */
    method ParseFramesFromBytes(bytes: seq<byte>) returns (frames: seq<Frame>)
      modifies this`buffer, this`ignoringUntilNextFlag
      ensures var r := Feed(old(Link()), bytes, CheckedDecoder(crc));
        Link() == r.state && frames == FramesOf(r.payloads)
    {
      ghost var decode := CheckedDecoder(crc);
      ghost var whole := Reach(Link(), bytes, decode);
      buffer := buffer + bytes;
      assert buffer + [] == buffer;
      frames := [];
      ghost var seen := [];
      var payload := NextFrameInto();
      while payload.Some?
        invariant frames == FramesOf(seen)
        invariant var rest := Reach(Link(), [], decode);
          if payload.Some? then whole == Scanned(rest.state, seen + ([payload.value] + rest.payloads))
          else whole.payloads == seen && Link() == Trimmed(whole.state)
        decreases payload.Some?, |buffer|
      {
        var r := ParseFrame(payload.value);
        if r.Ok? {
          frames := frames + [r.frame];
        }
        SelectedConcat(seen, [payload.value], ReadFrame);
        SelectedOne(payload.value, ReadFrame);
        ghost var rest := Reach(Link(), [], decode);
        Regroup(seen, [payload.value], rest.payloads);
        seen := seen + [payload.value];
        payload := NextFrameInto();
        assert seen + [] == seen;
      }
    }

    /** Routes one inbound frame. */
    method HandleInboundFrame(f: Frame) returns (routed: Routed)
      requires Valid()
      modifies this`pending
      ensures Valid()
      ensures routed == RouteOf(old(pending), f, known) && pending == PendingAfter(old(pending), f, known)
    {
      RouteShrinks(pending, f, known);
      ShrinkingKeepsSound(Session(nextTid, pending, made, []), PendingAfter(pending, f, known));
      var tid := f.header.transactionId as nat;
      routed := Ignored;
      if tid == 0 {
        if f.command == PROP_VALUE_IS {
          var property := PackedIntegers.Deserialize(Codes(f.payload));
          if property.Some? {
            if property.value.0 == 0 {
              routed := HandleUnsolicitedLastStatus(property.value.1);
            } else if known(property.value.0) {
              routed := Updated(property.value.0, property.value.1);
            }
          }
        }
      } else if tid in pending {
        routed := Answered(pending[tid], f);
        pending := pending - {tid};
      } else {
        assert pending - {tid} == pending;
      }
    }

    method HandleUnsolicitedLastStatus(value: seq<u8>) returns (routed: Routed)
      requires Valid()
      modifies this`pending
      ensures Valid()
      ensures var r := PackedIntegers.Unpacked(value, 3);
        routed == if r.Some? && KnownStatus(r.value.0) && r.value.0 >= 112 then ResetSeen(r.value.0) else Ignored
      ensures pending == if routed.ResetSeen? then map[] else old(pending)
    {
      var r := PackedIntegers.Deserialize(value);
      if r.None? || r.value.0 > 255 || !KnownStatus(r.value.0) {
        return Ignored;
      }
      if r.value.0 >= 112 {
        NotifyReset();
        return ResetSeen(r.value.0);
      }
      routed := Ignored;
    }

    method HandlePayload(payload: seq<byte>) returns (routed: seq<Routed>)
      requires Valid()
      modifies this`pending
      ensures Valid()
      ensures (pending, routed) == RouteAll(old(pending), Singleton(ReadFrame(payload)), known)
    {
      var r := ParseFrame(payload);
      if r.Err? {
        return [];
      }
      RouteOne(pending, r.frame, known);
      var where := HandleInboundFrame(r.frame);
      routed := [where];
    }

    /** Deframes a read and routes its frames in order. */
    method HandleInboundBytes(bytes: seq<byte>) returns (routed: seq<Routed>)
      requires Valid()
      modifies this`buffer, this`ignoringUntilNextFlag, this`pending
      ensures Valid()
      ensures Served(Link(), pending, routed) == Serve(old(Link()), old(pending), bytes, CheckedDecoder(crc), known)
    {
      ghost var decode := CheckedDecoder(crc);
      ghost var whole := Reach(Link(), bytes, decode);
      buffer := buffer + bytes;
      assert buffer + [] == buffer;
      routed := [];
      ghost var seen := [];
      var payload := NextFrameInto();
      while payload.Some?
        invariant Valid()
        invariant (pending, routed) == RouteAll(old(pending), FramesOf(seen), known)
        invariant var rest := Reach(Link(), [], decode);
          if payload.Some? then whole == Scanned(rest.state, seen + ([payload.value] + rest.payloads))
          else whole.payloads == seen && Link() == Trimmed(whole.state)
        decreases payload.Some?, |buffer|
      {
        SelectedConcat(seen, [payload.value], ReadFrame);
        SelectedOne(payload.value, ReadFrame);
        RouteAllConcat(old(pending), FramesOf(seen), Singleton(ReadFrame(payload.value)), known);
        var out := HandlePayload(payload.value);
        routed := routed + out;
        ghost var rest := Reach(Link(), [], decode);
        Regroup(seen, [payload.value], rest.payloads);
        seen := seen + [payload.value];
        payload := NextFrameInto();
        assert seen + [] == seen;
      }
    }

    /** Issues the first free id of the cycle; `None` is the source's assertion failure. */
    method PrepareRequest(command: byte, payload: seq<byte>) returns (r: Option<(Frame, nat)>)
      requires Valid()
      modifies this`nextTid, this`pending, this`made
      ensures Valid()
      ensures var e := Issue(old(pending), old(nextTid), old(made));
        && Session(nextTid, pending, made, [e]) == Step(old(Session(nextTid, pending, made, [])), Prepare, known)
        && (r.None? <==> e.Exhausted?)
        && (r.Some? ==> r.value.1 == e.request && r.value.0.header.transactionId as nat == e.id
                        && r.value.0.command == command && r.value.0.payload == payload
                        && r.value.0.header.flag == 2 && r.value.0.header.networkLinkId == 0)
    {
      StepKeepsSound(Session(nextTid, pending, made, []), Prepare, known);
      PrepareStep(nextTid, pending, made, known);
      var free := FirstFree();
      if free.None? {
        return None;
      }
      var tid := free.value;
      var frame := RequestFrame(tid, command, payload);
      r := Some((frame, made));
      var next := Following(tid);
      nextTid, pending, made := next, pending[tid := made], made + 1;
    }

    static method Following(tid: nat) returns (next: nat)
      requires IsTid(tid)
      ensures next == Next(tid)
    {
      next := 1 + tid % 7;
    }

    method FirstFree() returns (r: Option<nat>)
      requires IsTid(nextTid)
      ensures var k := Probe(pending, nextTid, 0);
        r == if k.None? then None else Some(Ahead(nextTid, k.value))
    {
      ProbeFinds(pending, nextTid, 0);
      var tid := nextTid;
      ghost var skipped := 0;
      while tid in pending
        invariant skipped < 7 && tid == Ahead(nextTid, skipped)
        invariant Probe(pending, nextTid, 0) == Probe(pending, nextTid, skipped)
        decreases 7 - skipped
      {
        tid := Following(tid);
        skipped := skipped + 1;
        if tid == nextTid {
          return None;
        }
      }
      r := Some(tid);
    }

    static method RequestFrame(tid: nat, command: byte, payload: seq<byte>) returns (f: Frame)
      requires IsTid(tid)
      ensures f == Frame(f.header, command, payload)
      ensures f.header.flag == 2 && f.header.networkLinkId == 0 && f.header.transactionId as nat == tid
    {
      f := Frame(Header(2, 0, tid as byte), command, payload);
    }

    method CancelRequest(tid: nat)
      requires Valid()
      modifies this`pending
      ensures Valid()
      ensures pending == old(pending) - {tid}
    {
      pending := pending - {tid};
    }

    method NotifyReset()
      requires Valid()
      modifies this`pending
      ensures Valid()
      ensures pending == map[]
    {
      pending := map[];
    }
  }

  lemma SelectedOne<A, B>(x: A, f: A -> Option<B>)
    ensures Selected([x], f) == Singleton(f(x))
  {
  }

  lemma RouteOne(pending: Pending, f: Frame, known: Known)
    ensures RouteAll(pending, [f], known) == (PendingAfter(pending, f, known), [RouteOf(pending, f, known)])
  {
    assert [f][1..] == [];
    assert [RouteOf(pending, f, known)] + [] == [RouteOf(pending, f, known)];
  }
}
