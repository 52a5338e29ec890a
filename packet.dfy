/**
 * Decoding of one packet-event body: the 4-byte nfgenmsg header followed by
 * a stream of 4-byte-aligned attributes (parseNFPacket in nflog.go).
 */
module Packet {
  import opened Wrappers
  import opened Bytes
  import opened Consts
  import opened Helpers
  import opened Types

  /**
   * The hardware-address block. Its Go type is not part of this model; it is
   * taken to be the kernel's 12-byte nfulnl_msg_packet_hw, read as a whole.
   */
  const HwAddrSize := 12

  datatype HwAddr = HwAddr(raw: seq<u8>)

  datatype Timestamp = Timestamp(sec: i64, usec: i64)

  /** A decoded log record: family and group always, every other field only if its attribute occurred. */
  datatype Msg = Msg(
    family: u8,
    group: u16,
    uid: Option<u32>,
    gid: Option<u32>,
    inDev: Option<u32>,
    outDev: Option<u32>,
    mark: Option<u32>,
    hwAddr: Option<HwAddr>,
    macLayerType: Option<u16>,
    macLayer: Option<seq<u8>>,
    prefix: Option<seq<u8>>,
    payload: Option<seq<u8>>,
    timestamp: Option<Timestamp>)

  function Blank(family: u8, group: u16): Msg
  {
    Msg(family, group, None, None, None, None, None, None, None, None, None, None, None)
  }

  /** What the decoder does with an attribute, by tag; every other tag is skipped. */
  datatype AttrKind =
    | UidAttr | GidAttr | InDevAttr | OutDevAttr | MarkAttr
    | HwAddrAttr | HwTypeAttr | TimestampAttr
    | PrefixAttr | PayloadAttr | HwHeaderAttr
    | OtherAttr

  const HandledTags: set<u16> := {
    NFULA_PREFIX, NFULA_PAYLOAD, NFULA_UID, NFULA_GID, NFULA_IFINDEX_INDEV,
    NFULA_IFINDEX_OUTDEV, NFULA_HWADDR, NFULA_HWTYPE, NFULA_HWHEADER,
    NFULA_MARK, NFULA_TIMESTAMP}

  /** The dispatch of parseNFPacket's switch. */
  function KindOf(tag: u16): (k: AttrKind)
    ensures k == OtherAttr <==> tag !in HandledTags
  {
    if tag == NFULA_PREFIX then PrefixAttr
    else if tag == NFULA_PAYLOAD then PayloadAttr
    else if tag == NFULA_UID then UidAttr
    else if tag == NFULA_GID then GidAttr
    else if tag == NFULA_IFINDEX_INDEV then InDevAttr
    else if tag == NFULA_IFINDEX_OUTDEV then OutDevAttr
    else if tag == NFULA_HWADDR then HwAddrAttr
    else if tag == NFULA_HWTYPE then HwTypeAttr
    else if tag == NFULA_HWHEADER then HwHeaderAttr
    else if tag == NFULA_MARK then MarkAttr
    else if tag == NFULA_TIMESTAMP then TimestampAttr
    else OtherAttr
  }

  /** Number of value bytes a fixed-size read takes; none for variable-length and skipped kinds. */
  function ScalarWidth(k: AttrKind): Option<nat>
  {
    match k
    case UidAttr | GidAttr | InDevAttr | OutDevAttr | MarkAttr => Some(4)
    case HwAddrAttr => Some(HwAddrSize)
    case HwTypeAttr => Some(2)
    case TimestampAttr => Some(16)
    case _ => None
  }

  /** Value sizes for which Store is defined. */
  predicate ValueFits(k: AttrKind, n: nat)
  {
    && (ScalarWidth(k).Some? ==> n == ScalarWidth(k).value)
    && (k == PrefixAttr ==> n >= 1)
  }

  /**
   * Errors of the attribute stream. UnexpectedEof is what binary.Read returns
   * for a TLV header cut short; MalformedAttr covers the cases the source does
   * not guard (see Check).
   */
  datatype PacketError = UnexpectedEof | MalformedAttr(tag: u16)

  function PacketErrorText(e: PacketError): string
  {
    match e
    case UnexpectedEof => "unexpected EOF"
    case MalformedAttr(_) => "malformed attribute"
  }

  /**
   * Rejects an attribute header when its length is below 4 (the uint16
   * subtraction would wrap), when the value of a handled tag would run past
   * the buffer, when a PREFIX is empty (dropping its NUL would underflow),
   * or when a scalar's declared size is not the size the decoder reads. A
   * skipped tag may run past the buffer: its Seek only moves the cursor to
   * the end.
   */
  function Check(tlv: NflogTlv, avail: nat): (r: Option<PacketError>)
    ensures r.None? <==>
              && tlv.len >= 4
              && (tlv.len - 4 <= avail || KindOf(tlv.attrType) == OtherAttr)
              && ValueFits(KindOf(tlv.attrType), tlv.len - 4)
    ensures r.Some? ==> r == Some(MalformedAttr(tlv.attrType))
  {
    if tlv.len < 4 then Some(MalformedAttr(tlv.attrType))
    else if tlv.len - 4 > avail && KindOf(tlv.attrType) != OtherAttr then Some(MalformedAttr(tlv.attrType))
    else if !ValueFits(KindOf(tlv.attrType), tlv.len - 4) then Some(MalformedAttr(tlv.attrType))
    else None
  }

  /** Fills the field that the tag selects; a skipped tag leaves the record as it is. */
  function Store(m: Msg, tag: u16, value: seq<u8>): (r: Msg)
    requires ValueFits(KindOf(tag), |value|)
    ensures r.family == m.family && r.group == m.group
    ensures KindOf(tag) == OtherAttr ==> r == m
  {
    match KindOf(tag)
    case UidAttr => m.(uid := Some(ReadBE32(value, 0)))
    case GidAttr => m.(gid := Some(ReadBE32(value, 0)))
    case InDevAttr => m.(inDev := Some(ReadBE32(value, 0)))
    case OutDevAttr => m.(outDev := Some(ReadBE32(value, 0)))
    case MarkAttr => m.(mark := Some(ReadBE32(value, 0)))
    case HwAddrAttr => m.(hwAddr := Some(HwAddr(value)))
    case HwTypeAttr => m.(macLayerType := Some(ReadBE16(value, 0)))
    case TimestampAttr => m.(timestamp := Some(Timestamp(AsInt64(ReadBE64(value, 0)), AsInt64(ReadBE64(value, 8)))))
    case PrefixAttr => m.(prefix := Some(value[..|value| - 1]))
    case PayloadAttr => m.(payload := Some(value))
    case HwHeaderAttr => m.(macLayer := Some(value))
    case OtherAttr => m
  }

  function Min(a: nat, b: nat): nat
  {
    if a <= b then a else b
  }

  /** One attribute read off the front of the stream, and how many bytes the cursor moved. */
  datatype Step = Step(tag: u16, value: seq<u8>, consumed: nat)

  /**
   * Reads one attribute. The cursor moves over the header and the padded
   * value, align4_16(len - 4) bytes, or to the end of the buffer when the
   * padding is cut off (a short Read or a Seek past the end).
   */
  function NextAttr(rest: seq<u8>): (r: Result<Step, PacketError>)
    requires |rest| > 0
    ensures r.Ok? ==> NfAttrSize + |r.value.value| <= r.value.consumed <= |rest|
    ensures r.Ok? ==> ValueFits(KindOf(r.value.tag), |r.value.value|)
    ensures r.Ok? ==> r.value.value == rest[NfAttrSize..NfAttrSize + |r.value.value|]
    ensures |rest| < NfAttrSize ==> r == Err(UnexpectedEof)
    // a full header fails exactly when Check rejects it, with Check's error
    ensures |rest| >= NfAttrSize ==>
              var c := Check(DecodeNfAttr(rest, 0).value, |rest| - NfAttrSize);
              (r.Err? <==> c.Some?) && (c.Some? ==> r == Err(c.value))
    // the tag and the Len - 4 value bytes come from the attribute header; a skipped
    // tag whose value runs past the buffer keeps what is there
    ensures r.Ok? ==> var h := DecodeNfAttr(rest, 0).value;
                      && r.value.tag == h.attrType
                      && |r.value.value| == Min(h.len - NfAttrSize, |rest| - NfAttrSize)
                      && (KindOf(h.attrType) != OtherAttr ==> |r.value.value| == h.len - NfAttrSize)
    // the cursor moves over the padded value, or to the end when the padding is cut off
    ensures r.Ok? && NfAttrSize + Align4_16(|r.value.value|) <= |rest| ==>
              r.value.consumed == NfAttrSize + Align4_16(|r.value.value|)
    ensures r.Ok? && NfAttrSize + Align4_16(|r.value.value|) > |rest| ==> r.value.consumed == |rest|
  {
    if |rest| < NfAttrSize then Err(UnexpectedEof)
    else
      var tlv := DecodeNfAttr(rest, 0).value;
      var avail := |rest| - NfAttrSize;
      match Check(tlv, avail)
      case Some(e) => Err(e)
      case None =>
        var payloadLen := tlv.len - 4;
        Ok(Step(tlv.attrType, rest[NfAttrSize..NfAttrSize + Min(payloadLen, avail)],
                NfAttrSize + Min(Align4_16(payloadLen), avail)))
  }

  /** Decodes the whole attribute stream into m, attribute by attribute, in stream order. */
  function DecodeAttrs(rest: seq<u8>, m: Msg): (r: Result<Msg, PacketError>)
    ensures r.Ok? ==> r.value.family == m.family && r.value.group == m.group
    decreases |rest|
  {
    if |rest| == 0 then Ok(m)
    else
      match NextAttr(rest)
      case Err(e) => Err(e)
      case Ok(s) => DecodeAttrs(rest[s.consumed..], Store(m, s.tag, s.value))
  }

  /**
   * A packet body: the nflogHeader, whose byte-swapped resource id is the
   * group, then the attributes. A body shorter than its header is read as
   * the source reads it: the failed read leaves family and group zero and
   * drains the reader, so no attribute follows.
   */
  function DecodePacket(body: seq<u8>): (r: Result<Msg, PacketError>)
    ensures |body| < NfGenMsgSize ==> r == Ok(Blank(0, 0))
    // the family is the first byte, the group the big-endian reading of bytes 2 and 3
    ensures |body| >= NfGenMsgSize && r.Ok? ==> r.value.family == body[0] && r.value.group == ReadBE16(body, 2)
  {
    if |body| < NfGenMsgSize then Ok(Blank(0, 0))
    else
      var header := DecodeNfGenMsg(body, 0).value;
      HtonsOfLE16IsBE16(body, 2);
      DecodeAttrs(body[NfGenMsgSize..], Blank(header.family, Htons(header.resId)))
  }

  /** One unfolding of DecodeAttrs: the front attribute either fails the walk or is stored before the rest. */
  lemma DecodeAttrsUnfold(rest: seq<u8>, m: Msg)
    requires |rest| > 0
    ensures NextAttr(rest).Err? ==> DecodeAttrs(rest, m) == Err(NextAttr(rest).error)
    ensures NextAttr(rest).Ok? ==>
              var s := NextAttr(rest).value;
              DecodeAttrs(rest, m) == DecodeAttrs(rest[s.consumed..], Store(m, s.tag, s.value))
  {
  }

  /**
   * One iteration of parseNFPacket's loop: reads the attribute header at the
   * cursor, stores the value, and says how far the cursor moved.
   */
  method ReadAttr(rest: seq<u8>, m: Msg) returns (r: Result<(nat, Msg), PacketError>)
    requires |rest| > 0
    ensures r.Err? ==> NextAttr(rest) == Err(r.error)
    ensures r.Ok? ==> NextAttr(rest).Ok?
    ensures r.Ok? ==> var s := NextAttr(rest).value;
                      r.value == (s.consumed, Store(m, s.tag, s.value))
  {
    if |rest| < NfAttrSize {
      return Err(UnexpectedEof);
    }
    var tlv := DecodeNfAttr(rest, 0).value;
    var avail := |rest| - NfAttrSize;
    var bad := Check(tlv, avail);
    if bad.Some? {
      return Err(bad.value);
    }
    var payloadLen := tlv.len - 4;
    var value := rest[NfAttrSize..NfAttrSize + Min(payloadLen, avail)];
    var consumed := NfAttrSize + Min(Align4_16(payloadLen), avail);
    assert NextAttr(rest) == Ok(Step(tlv.attrType, value, consumed));
    var filled := Store(m, tlv.attrType, value);
    return Ok((consumed, filled));
  }

  /** parseNFPacket: walks a cursor over the body and fills the record one field at a time. */
  method ParseNFPacket(body: seq<u8>) returns (r: Result<Msg, PacketError>)
    ensures r == DecodePacket(body)
  {
    if |body| < NfGenMsgSize {
      return Ok(Blank(0, 0));
    }
    var header := DecodeNfGenMsg(body, 0).value;
    var m := Blank(header.family, Htons(header.resId));
    var pos := NfGenMsgSize;
    ghost var remaining := body[pos..];
    ghost var decoded := DecodeAttrs(remaining, m);
    while pos < |body|
      invariant NfGenMsgSize <= pos <= |body|
      invariant remaining == body[pos..]
      invariant DecodeAttrs(remaining, m) == decoded
      decreases |body| - pos
    {
      DecodeAttrsUnfold(remaining, m);
      var step := ReadAttr(body[pos..], m);
      if step.Err? {
        return Err(step.error);
      }
      var consumed := step.value.0;
      remaining := remaining[consumed..];
      m := step.value.1;
      pos := pos + consumed;
    }
    assert body[pos..] == [];
    return Ok(m);
  }
}
