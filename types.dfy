/**
 * The fixed wire records (types.go). Go's binary.Write/binary.Read with
 * LittleEndian lay the fields out packed, in declaration order, each field
 * little endian. Fields documented as "BigEndian" hold a value that was
 * byte-swapped before it was stored, so their bytes appear in network order.
 */
module Types {
  import opened Wrappers
  import opened Bytes

  /** The netlink message header (envelope). */
  datatype NlMsgHdr = NlMsgHdr(len: u32, msgType: u16, flags: u16, seqNo: u32, pid: u32)

  /** The nfnetlink generic body: family, version, resource id. */
  datatype NfGenMsg = NfGenMsg(family: u8, version: u8, resId: u16)

  /** nflogHeader has the layout of nfgenmsg. */
  type NflogHeader = NfGenMsg

  /** An attribute (TLV) header: length including these 4 bytes, then the tag. */
  datatype NfAttr = NfAttr(len: u16, attrType: u16)

  /** nflogTlv has the layout of nfattr. */
  type NflogTlv = NfAttr

  datatype ConfigCmdPayload = ConfigCmdPayload(command: u8)

  datatype ConfigModePayload = ConfigModePayload(copyRange: u32, copyMode: u8, pad: u8)

  datatype NfConfigCmd = NfConfigCmd(header: NlMsgHdr, message: NfGenMsg, attr: NfAttr, cmd: ConfigCmdPayload)

  datatype NfConfigMode = NfConfigMode(header: NlMsgHdr, message: NfGenMsg, attr: NfAttr, mode: ConfigModePayload)

  const NlMsgHdrSize := 16
  const NfGenMsgSize := 4
  const NfAttrSize := 4
  const ConfigCmdSize := NlMsgHdrSize + NfGenMsgSize + NfAttrSize + 1
  const ConfigModeSize := NlMsgHdrSize + NfGenMsgSize + NfAttrSize + 6

  // ---- nlmsghdr ----

  function EncodeNlMsgHdr(h: NlMsgHdr): (b: seq<u8>)
    ensures |b| == NlMsgHdrSize
  {
    LE32(h.len) + LE16(h.msgType) + LE16(h.flags) + LE32(h.seqNo) + LE32(h.pid)
  }

  /** Reads a header starting at offset at of b; 16 bytes must be there. */
  function DecodeNlMsgHdr(b: seq<u8>, at: nat): (r: Option<NlMsgHdr>)
    ensures r.Some? <==> at + NlMsgHdrSize <= |b|
  {
    if |b| < at + NlMsgHdrSize then None
    else Some(NlMsgHdr(ReadLE32(b, at), ReadLE16(b, at + 4), ReadLE16(b, at + 6),
                       ReadLE32(b, at + 8), ReadLE32(b, at + 12)))
  }

  lemma {:induction false} NlMsgHdrRoundTrip(a: seq<u8>, h: NlMsgHdr, rest: seq<u8>)
    ensures DecodeNlMsgHdr(a + EncodeNlMsgHdr(h) + rest, |a|) == Some(h)
  {
    var p0, p4, p6, p8, p12 := LE32(h.len), LE16(h.msgType), LE16(h.flags), LE32(h.seqNo), LE32(h.pid);
    var b := a + EncodeNlMsgHdr(h) + rest;
    assert b == a + p0 + (p4 + p6 + p8 + p12 + rest);
    LE32At(a, h.len, p4 + p6 + p8 + p12 + rest);
    assert b == (a + p0) + p4 + (p6 + p8 + p12 + rest);
    LE16At(a + p0, h.msgType, p6 + p8 + p12 + rest);
    assert b == (a + p0 + p4) + p6 + (p8 + p12 + rest);
    LE16At(a + p0 + p4, h.flags, p8 + p12 + rest);
    assert b == (a + p0 + p4 + p6) + p8 + (p12 + rest);
    LE32At(a + p0 + p4 + p6, h.seqNo, p12 + rest);
    assert b == (a + p0 + p4 + p6 + p8) + p12 + rest;
    LE32At(a + p0 + p4 + p6 + p8, h.pid, rest);
  }

  // ---- nfgenmsg / nflogHeader ----

  function EncodeNfGenMsg(g: NfGenMsg): (b: seq<u8>)
    ensures |b| == NfGenMsgSize
  {
    [g.family, g.version] + LE16(g.resId)
  }

  function DecodeNfGenMsg(b: seq<u8>, at: nat): (r: Option<NfGenMsg>)
    ensures r.Some? <==> at + NfGenMsgSize <= |b|
  {
    if |b| < at + NfGenMsgSize then None
    else Some(NfGenMsg(b[at], b[at + 1], ReadLE16(b, at + 2)))
  }

  lemma {:induction false} NfGenMsgRoundTrip(a: seq<u8>, g: NfGenMsg, rest: seq<u8>)
    ensures DecodeNfGenMsg(a + EncodeNfGenMsg(g) + rest, |a|) == Some(g)
  {
    var b := a + EncodeNfGenMsg(g) + rest;
    assert b == (a + [g.family, g.version]) + LE16(g.resId) + rest;
    LE16At(a + [g.family, g.version], g.resId, rest);
  }

  /** A resource id stored byte-swapped goes on the wire in network order. */
  lemma ResIdInNetworkOrder(family: u8, version: u8, id: u16)
    ensures EncodeNfGenMsg(NfGenMsg(family, version, Htons(id)))[2..] == BE16(id)
  {
  }

  // ---- nfattr / nflogTlv ----

  function EncodeNfAttr(t: NfAttr): (b: seq<u8>)
    ensures |b| == NfAttrSize
  {
    LE16(t.len) + LE16(t.attrType)
  }

  function DecodeNfAttr(b: seq<u8>, at: nat): (r: Option<NfAttr>)
    ensures r.Some? <==> at + NfAttrSize <= |b|
  {
    if |b| < at + NfAttrSize then None
    else Some(NfAttr(ReadLE16(b, at), ReadLE16(b, at + 2)))
  }

  lemma {:induction false} NfAttrRoundTrip(a: seq<u8>, t: NfAttr, rest: seq<u8>)
    ensures DecodeNfAttr(a + EncodeNfAttr(t) + rest, |a|) == Some(t)
  {
    var b := a + EncodeNfAttr(t) + rest;
    assert b == a + LE16(t.len) + (LE16(t.attrType) + rest);
    LE16At(a, t.len, LE16(t.attrType) + rest);
    assert b == (a + LE16(t.len)) + LE16(t.attrType) + rest;
    LE16At(a + LE16(t.len), t.attrType, rest);
  }

  // ---- nfConfigCmd: nlmsghdr + nfgenmsg + nfattr + command byte ----

  function EncodeConfigCmd(c: NfConfigCmd): (b: seq<u8>)
    ensures |b| == ConfigCmdSize == 25
  {
    EncodeNlMsgHdr(c.header) + EncodeNfGenMsg(c.message) + EncodeNfAttr(c.attr) + [c.cmd.command]
  }

  function DecodeConfigCmd(b: seq<u8>): (r: Option<NfConfigCmd>)
    ensures r.Some? <==> |b| >= ConfigCmdSize
  {
    if |b| < ConfigCmdSize then None
    else Some(NfConfigCmd(DecodeNlMsgHdr(b, 0).value, DecodeNfGenMsg(b, 16).value,
                          DecodeNfAttr(b, 20).value, ConfigCmdPayload(b[24])))
  }

  lemma {:induction false} ConfigCmdRoundTrip(c: NfConfigCmd, rest: seq<u8>)
    ensures DecodeConfigCmd(EncodeConfigCmd(c) + rest) == Some(c)
  {
    var h, g, t := EncodeNlMsgHdr(c.header), EncodeNfGenMsg(c.message), EncodeNfAttr(c.attr);
    var b := EncodeConfigCmd(c) + rest;
    assert b == [] + h + (g + t + [c.cmd.command] + rest);
    NlMsgHdrRoundTrip([], c.header, g + t + [c.cmd.command] + rest);
    assert b == h + g + (t + [c.cmd.command] + rest);
    NfGenMsgRoundTrip(h, c.message, t + [c.cmd.command] + rest);
    assert b == (h + g) + t + ([c.cmd.command] + rest);
    NfAttrRoundTrip(h + g, c.attr, [c.cmd.command] + rest);
    assert b[24] == c.cmd.command;
  }

  // ---- nfConfigMode: nlmsghdr + nfgenmsg + nfattr + range, mode, pad ----

  function EncodeModePayload(m: ConfigModePayload): (b: seq<u8>)
    ensures |b| == 6
  {
    LE32(m.copyRange) + [m.copyMode, m.pad]
  }

  function EncodeConfigMode(c: NfConfigMode): (b: seq<u8>)
    ensures |b| == ConfigModeSize == 30
  {
    EncodeNlMsgHdr(c.header) + EncodeNfGenMsg(c.message) + EncodeNfAttr(c.attr) + EncodeModePayload(c.mode)
  }

  function DecodeConfigMode(b: seq<u8>): (r: Option<NfConfigMode>)
    ensures r.Some? <==> |b| >= ConfigModeSize
  {
    if |b| < ConfigModeSize then None
    else Some(NfConfigMode(DecodeNlMsgHdr(b, 0).value, DecodeNfGenMsg(b, 16).value,
                           DecodeNfAttr(b, 20).value,
                           ConfigModePayload(ReadLE32(b, 24), b[28], b[29])))
  }

  lemma {:induction false} ConfigModeRoundTrip(c: NfConfigMode, rest: seq<u8>)
    ensures DecodeConfigMode(EncodeConfigMode(c) + rest) == Some(c)
  {
    var h, g, t := EncodeNlMsgHdr(c.header), EncodeNfGenMsg(c.message), EncodeNfAttr(c.attr);
    var r, tail := LE32(c.mode.copyRange), [c.mode.copyMode, c.mode.pad] + rest;
    var b := EncodeConfigMode(c) + rest;
    assert b == [] + h + (g + t + r + tail);
    NlMsgHdrRoundTrip([], c.header, g + t + r + tail);
    assert b == h + g + (t + r + tail);
    NfGenMsgRoundTrip(h, c.message, t + r + tail);
    assert b == (h + g) + t + (r + tail);
    NfAttrRoundTrip(h + g, c.attr, r + tail);
    assert b == (h + g + t) + r + tail;
    LE32At(h + g + t, c.mode.copyRange, tail);
    assert b[28] == c.mode.copyMode && b[29] == c.mode.pad;
  }
}
