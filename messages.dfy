/**
 * Splitting one received datagram into netlink messages (parseNFMsg in
 * nflog.go). Each message starts with a 16-byte netlink header whose Len
 * counts the header itself; only ULOG packet messages are decoded, and
 * every message, decoded or not, moves the buffer on by its Len.
 */
module Messages {
  import opened Wrappers
  import opened Bytes
  import opened Consts
  import opened Types
  import opened Packet

  /**
   * Why a datagram was not split to its end. Truncated and PacketFailed are
   * the errors the source returns. ShortHeader (fewer than 16 bytes left)
   * and BadLength (a Len of 0, or a packet message shorter than its header)
   * stand for the cases where the source makes no progress or slices out of
   * range.
   */
  datatype ParseError =
    | ShortHeader
    | BadLength(len: u32)
    | Truncated
    | PacketFailed(cause: PacketError)

  const TruncatedText := "message was truncated"
  const PacketFailedText := "failed to parse NFPacket: "

  /** The text of the error, which the reader wraps into a ParserError. */
  function ParseErrorText(e: ParseError): (s: string)
    ensures e.Truncated? ==> s == TruncatedText
    ensures e.PacketFailed? ==> s == PacketFailedText + PacketErrorText(e.cause)
  {
    match e
    case ShortHeader => "short netlink header"
    case BadLength(_) => "bad netlink message length"
    case Truncated => TruncatedText
    case PacketFailed(cause) => PacketFailedText + PacketErrorText(cause)
  }

  /** The records decoded from a datagram, in buffer order, and the error that stopped the walk, if any. */
  datatype Parsed = Parsed(records: seq<Msg>, err: Option<ParseError>)

  function Prepend(ms: seq<Msg>, p: Parsed): Parsed
  {
    Parsed(ms + p.records, p.err)
  }

  /** Whether a header announces a packet event. */
  predicate IsPacket(h: NlMsgHdr)
  {
    h.msgType == PacketMsgType
  }

  /** Whether a header's Len is one the walk can act on, given its type. */
  predicate LenUsable(h: NlMsgHdr)
  {
    h.len != 0 && (IsPacket(h) ==> h.len >= NlMsgHdrSize)
  }

  /** What parseNFMsg does with a buffer, message by message. */
  function Split(buf: seq<u8>): (r: Parsed)
    // every record takes a message of at least 16 bytes
    ensures NlMsgHdrSize * |r.records| <= |buf|
    decreases |buf|
  {
    if |buf| == 0 then Parsed([], None)
    else if |buf| < NlMsgHdrSize then Parsed([], Some(ShortHeader))
    else
      var h := DecodeNlMsgHdr(buf, 0).value;
      if h.len > |buf| then Parsed([], Some(Truncated))
      else if !LenUsable(h) then Parsed([], Some(BadLength(h.len)))
      else if IsPacket(h) then
        match DecodePacket(buf[NlMsgHdrSize..h.len])
        case Err(e) => Parsed([], Some(PacketFailed(e)))
        case Ok(m) => Prepend([m], Split(buf[h.len..]))
      else Split(buf[h.len..])
  }

  /** One message of the walk: what it yields and how far the buffer moves. */
  lemma SplitStep(buf: seq<u8>, h: NlMsgHdr)
    requires DecodeNlMsgHdr(buf, 0) == Some(h)
    ensures h.len > |buf| ==> Split(buf) == Parsed([], Some(Truncated))
    ensures h.len <= |buf| && !LenUsable(h) ==> Split(buf) == Parsed([], Some(BadLength(h.len)))
    ensures h.len <= |buf| && LenUsable(h) && !IsPacket(h) ==> Split(buf) == Split(buf[h.len..])
    ensures h.len <= |buf| && LenUsable(h) && IsPacket(h) && DecodePacket(buf[NlMsgHdrSize..h.len]).Ok? ==>
              Split(buf) == Prepend([DecodePacket(buf[NlMsgHdrSize..h.len]).value], Split(buf[h.len..]))
    ensures h.len <= |buf| && LenUsable(h) && IsPacket(h) && DecodePacket(buf[NlMsgHdrSize..h.len]).Err? ==>
              Split(buf) == Parsed([], Some(PacketFailed(DecodePacket(buf[NlMsgHdrSize..h.len]).error)))
  {
  }

  /**
   * parseNFMsg: reads the header at the front of the buffer, checks its Len,
   * decodes packet messages and drops the message from the front. The
   * records are returned in the order the source hands them on.
   */
  method ParseNFMsg(buffer: seq<u8>) returns (records: seq<Msg>, err: Option<ParseError>)
    ensures Parsed(records, err) == Split(buffer)
  {
    var buf := buffer;
    records := [];
    while |buf| > 0
      invariant Split(buffer) == Prepend(records, Split(buf))
      decreases |buf|
    {
      if |buf| < NlMsgHdrSize {
        return records, Some(ShortHeader);
      }
      var header := DecodeNlMsgHdr(buf, 0).value;
      var msgLen := header.len;
      if msgLen > |buf| {
        return records, Some(Truncated);
      }
      if !LenUsable(header) {
        return records, Some(BadLength(msgLen));
      }
      SplitStep(buf, header);
      if IsPacket(header) {
        var m := ParseNFPacket(buf[NlMsgHdrSize..msgLen]);
        if m.Err? {
          return records, Some(PacketFailed(m.error));
        }
        records := records + [m.value];
      }
      buf := buf[msgLen..];
    }
    return records, None;
  }

  // ---- the inverse: datagrams built from whole messages ----

  /** One netlink message as the kernel writes it; its Len is computed from the body. */
  datatype Frame = Frame(msgType: u16, flags: u16, seqNo: u32, pid: u32, body: seq<u8>)

  function FrameHeader(f: Frame): NlMsgHdr
    requires NlMsgHdrSize + |f.body| < 0x1_0000_0000
  {
    NlMsgHdr(NlMsgHdrSize + |f.body|, f.msgType, f.flags, f.seqNo, f.pid)
  }

  /** A frame the walk accepts: its Len fits, and a packet body decodes. */
  predicate FrameOk(f: Frame)
  {
    && NlMsgHdrSize + |f.body| < 0x1_0000_0000
    && (f.msgType == PacketMsgType ==> DecodePacket(f.body).Ok?)
  }

  function EncodeFrame(f: Frame): (b: seq<u8>)
    requires NlMsgHdrSize + |f.body| < 0x1_0000_0000
    ensures |b| == NlMsgHdrSize + |f.body|
  {
    EncodeNlMsgHdr(FrameHeader(f)) + f.body
  }

  predicate AllFramesOk(fs: seq<Frame>)
  {
    forall i :: 0 <= i < |fs| ==> FrameOk(fs[i])
  }

  function EncodeFrames(fs: seq<Frame>): seq<u8>
    requires AllFramesOk(fs)
  {
    if fs == [] then [] else EncodeFrame(fs[0]) + EncodeFrames(fs[1..])
  }

  /** The records the packet frames carry, in frame order; other frames carry none. */
  function Records(fs: seq<Frame>): seq<Msg>
    requires AllFramesOk(fs)
  {
    if fs == [] then []
    else if fs[0].msgType == PacketMsgType then [DecodePacket(fs[0].body).value] + Records(fs[1..])
    else Records(fs[1..])
  }

  /** A frame at the front of the buffer is read back with its own header and body. */
  lemma {:induction false} FrontFrame(f: Frame, rest: seq<u8>)
    requires NlMsgHdrSize + |f.body| < 0x1_0000_0000
    ensures var buf := EncodeFrame(f) + rest;
            && DecodeNlMsgHdr(buf, 0) == Some(FrameHeader(f))
            && buf[NlMsgHdrSize..NlMsgHdrSize + |f.body|] == f.body
            && buf[NlMsgHdrSize + |f.body|..] == rest
  {
    var hb := EncodeNlMsgHdr(FrameHeader(f));
    var buf := EncodeFrame(f) + rest;
    assert buf == [] + hb + (f.body + rest);
    NlMsgHdrRoundTrip([], FrameHeader(f), f.body + rest);
    assert buf == hb + (f.body + rest);
    DropFront(hb, f.body + rest);
    DropFront(hb + f.body, rest);
  }

  /** A well-formed frame yields its record, if it is a packet, and the walk resumes right after it. */
  lemma {:induction false} SplitFrame(f: Frame, rest: seq<u8>)
    requires FrameOk(f)
    ensures f.msgType == PacketMsgType ==>
              Split(EncodeFrame(f) + rest) == Prepend([DecodePacket(f.body).value], Split(rest))
    ensures f.msgType != PacketMsgType ==> Split(EncodeFrame(f) + rest) == Split(rest)
  {
    FrontFrame(f, rest);
    SplitStep(EncodeFrame(f) + rest, FrameHeader(f));
  }

  /**
   * Datagrams of whole messages: every packet message yields its record, in
   * order, every other message is skipped, and the walk goes on with what
   * follows the last message.
   */
  lemma {:induction false} SplitFrames(fs: seq<Frame>, rest: seq<u8>)
    requires AllFramesOk(fs)
    ensures Split(EncodeFrames(fs) + rest) == Prepend(Records(fs), Split(rest))
    decreases |fs|
  {
    if fs == [] {
      assert EncodeFrames(fs) + rest == rest;
    } else {
      var tail := EncodeFrames(fs[1..]);
      assert EncodeFrames(fs) + rest == EncodeFrame(fs[0]) + (tail + rest);
      SplitFrame(fs[0], tail + rest);
      SplitFrames(fs[1..], rest);
      var after := Split(tail + rest);
      if fs[0].msgType == PacketMsgType {
        var m := DecodePacket(fs[0].body).value;
        assert Records(fs) == [m] + Records(fs[1..]);
        AppendAssoc([m], Records(fs[1..]), Split(rest).records);
      } else {
        assert Records(fs) == Records(fs[1..]);
      }
    }
  }

  /** A datagram made only of whole, well-formed messages is split without error. */
  lemma SplitWholeDatagram(fs: seq<Frame>)
    requires AllFramesOk(fs)
    ensures Split(EncodeFrames(fs)) == Parsed(Records(fs), None)
  {
    SplitFrames(fs, []);
    assert EncodeFrames(fs) + [] == EncodeFrames(fs);
  }

  /**
   * A message whose Len runs past the end of the datagram ends the walk with
   * the truncation error; the records of the messages before it are kept.
   */
  lemma TruncatedAfterFrames(fs: seq<Frame>, h: NlMsgHdr, tail: seq<u8>)
    requires AllFramesOk(fs)
    requires h.len > NlMsgHdrSize + |tail|
    ensures Split(EncodeFrames(fs) + (EncodeNlMsgHdr(h) + tail)) == Parsed(Records(fs), Some(Truncated))
  {
    SplitFrames(fs, EncodeNlMsgHdr(h) + tail);
    assert EncodeNlMsgHdr(h) + tail == [] + EncodeNlMsgHdr(h) + tail;
    NlMsgHdrRoundTrip([], h, tail);
  }

  /** A packet message whose body fails to decode ends the walk with that failure. */
  lemma PacketFailureReported(fs: seq<Frame>, f: Frame, rest: seq<u8>)
    requires AllFramesOk(fs)
    requires NlMsgHdrSize + |f.body| < 0x1_0000_0000
    requires f.msgType == PacketMsgType && DecodePacket(f.body).Err?
    ensures Split(EncodeFrames(fs) + (EncodeFrame(f) + rest))
         == Parsed(Records(fs), Some(PacketFailed(DecodePacket(f.body).error)))
  {
    SplitFrames(fs, EncodeFrame(f) + rest);
    FrontFrame(f, rest);
    SplitStep(EncodeFrame(f) + rest, FrameHeader(f));
  }

  // ---- one pass of the loop as written ----

  /** Where one pass of the source's loop leaves it: returned, panicked, or about to go round with next. */
  datatype Pass = Return(err: ParseError) | Panic | Continue(next: seq<u8>)

  /**
   * One pass of the loop as written, with parseNFPacket replaced by
   * DecodePacket (whose departures from the source are those of Check): a
   * header read that fails leaves the header zero, the truncation check and
   * the type test follow, and the buffer moves on by Len, whatever Len is.
   */
  function SourcePass(buf: seq<u8>): (r: Pass)
    requires |buf| > 0
    // a pass that goes round keeps a suffix of the buffer
    ensures r.Continue? ==> |r.next| <= |buf| && r.next == buf[|buf| - |r.next|..]
  {
    var h := if |buf| < NlMsgHdrSize then NlMsgHdr(0, 0, 0, 0, 0) else DecodeNlMsgHdr(buf, 0).value;
    if h.len > |buf| then Return(Truncated)
    else if IsPacket(h) then
      if h.len < NlMsgHdrSize then Panic
      else match DecodePacket(buf[NlMsgHdrSize..h.len])
        case Err(e) => Return(PacketFailed(e))
        case Ok(_) => Continue(buf[h.len..])
    else Continue(buf[h.len..])
  }

  /**
   * As written, a tail of fewer than 16 bytes, or a non-packet header whose
   * Len is 0, sends the loop round with the very same buffer, forever.
   */
  lemma SourcePassStalls(buf: seq<u8>)
    requires |buf| > 0
    requires |buf| < NlMsgHdrSize || (DecodeNlMsgHdr(buf, 0).value.len == 0 && !IsPacket(DecodeNlMsgHdr(buf, 0).value))
    ensures SourcePass(buf) == Continue(buf)
  {
    if |buf| >= NlMsgHdrSize {
      assert buf[0..] == buf;
    }
  }

  /** A one-byte datagram is such an input. */
  lemma SourceStallExample()
    ensures SourcePass([1]) == Continue([1])
  {
    SourcePassStalls([1]);
  }

  /** Split ends on those inputs with an error, and keeps the records decoded before them. */
  lemma StallReported(fs: seq<Frame>, buf: seq<u8>)
    requires AllFramesOk(fs)
    requires |buf| > 0
    requires |buf| < NlMsgHdrSize || (DecodeNlMsgHdr(buf, 0).value.len == 0 && !IsPacket(DecodeNlMsgHdr(buf, 0).value))
    ensures Split(EncodeFrames(fs) + buf).records == Records(fs)
    ensures Split(EncodeFrames(fs) + buf).err == Some(if |buf| < NlMsgHdrSize then ShortHeader else BadLength(0))
  {
    SplitFrames(fs, buf);
  }

  /** Wherever the pass as written makes progress, Split takes the same step. */
  lemma SplitFollowsSourcePass(buf: seq<u8>)
    requires |buf| > 0
    requires SourcePass(buf).Continue? && |SourcePass(buf).next| < |buf|
    ensures |buf| >= NlMsgHdrSize
    ensures var h := DecodeNlMsgHdr(buf, 0).value;
            Split(buf) == Prepend(if IsPacket(h) then [DecodePacket(buf[NlMsgHdrSize..h.len]).value] else [],
                                  Split(SourcePass(buf).next))
  {
  }

  /** Wherever the loop as written returns an error, Split ends with the same error and no record. */
  lemma SplitAgreesOnReturn(buf: seq<u8>)
    requires |buf| > 0 && SourcePass(buf).Return?
    ensures Split(buf) == Parsed([], Some(SourcePass(buf).err))
  {
  }
}
