/**
 * Typed attributes as the kernel sends them, their encoding into the
 * attribute stream, and what the decoder of Packet makes of that stream.
 */
module PacketFields {
  import opened Wrappers
  import opened Bytes
  import opened Consts
  import opened Helpers
  import opened Types
  import opened Packet

  /** One attribute with a typed value; Other stands for every tag the decoder skips. */
  datatype Field =
    | Uid(uid: u32)
    | Gid(gid: u32)
    | InDev(inDev: u32)
    | OutDev(outDev: u32)
    | Mark(mark: u32)
    | HwAddrField(addr: HwAddr)
    | HwType(hwType: u16)
    | Time(ts: Timestamp)
    | Prefix(text: seq<u8>)
    | Payload(data: seq<u8>)
    | HwHeader(header: seq<u8>)
    | Other(tag: u16, data: seq<u8>)

  function Tag(f: Field): u16
  {
    match f
    case Uid(_) => NFULA_UID
    case Gid(_) => NFULA_GID
    case InDev(_) => NFULA_IFINDEX_INDEV
    case OutDev(_) => NFULA_IFINDEX_OUTDEV
    case Mark(_) => NFULA_MARK
    case HwAddrField(_) => NFULA_HWADDR
    case HwType(_) => NFULA_HWTYPE
    case Time(_) => NFULA_TIMESTAMP
    case Prefix(_) => NFULA_PREFIX
    case Payload(_) => NFULA_PAYLOAD
    case HwHeader(_) => NFULA_HWHEADER
    case Other(tag, _) => tag
  }

  function Kind(f: Field): AttrKind
  {
    match f
    case Uid(_) => UidAttr
    case Gid(_) => GidAttr
    case InDev(_) => InDevAttr
    case OutDev(_) => OutDevAttr
    case Mark(_) => MarkAttr
    case HwAddrField(_) => HwAddrAttr
    case HwType(_) => HwTypeAttr
    case Time(_) => TimestampAttr
    case Prefix(_) => PrefixAttr
    case Payload(_) => PayloadAttr
    case HwHeader(_) => HwHeaderAttr
    case Other(_, _) => OtherAttr
  }

  /** The value bytes: scalars big endian, the prefix with its terminating NUL. */
  function Value(f: Field): seq<u8>
  {
    match f
    case Uid(x) => BE32(x)
    case Gid(x) => BE32(x)
    case InDev(x) => BE32(x)
    case OutDev(x) => BE32(x)
    case Mark(x) => BE32(x)
    case HwAddrField(a) => a.raw
    case HwType(t) => BE16(t)
    case Time(ts) => BE64(AsUint64(ts.sec)) + BE64(AsUint64(ts.usec))
    case Prefix(text) => text + [0]
    case Payload(d) => d
    case HwHeader(h) => h
    case Other(_, d) => d
  }

  /** The record with the field of f set, as a reader of the record sees it. */
  function Set(m: Msg, f: Field): Msg
  {
    match f
    case Uid(x) => m.(uid := Some(x))
    case Gid(x) => m.(gid := Some(x))
    case InDev(x) => m.(inDev := Some(x))
    case OutDev(x) => m.(outDev := Some(x))
    case Mark(x) => m.(mark := Some(x))
    case HwAddrField(a) => m.(hwAddr := Some(a))
    case HwType(t) => m.(macLayerType := Some(t))
    case Time(ts) => m.(timestamp := Some(ts))
    case Prefix(text) => m.(prefix := Some(text))
    case Payload(d) => m.(payload := Some(d))
    case HwHeader(h) => m.(macLayer := Some(h))
    case Other(_, _) => m
  }

  /** Fields the kernel can send: an Other tag is one the decoder does not handle, the value fits a TLV. */
  predicate FieldOk(f: Field)
  {
    && (f.Other? ==> KindOf(f.tag) == OtherAttr)
    && (f.HwAddrField? ==> |f.addr.raw| == HwAddrSize)
    && |Value(f)| <= 0xFFFF - NfAttrSize
  }

  /** An attribute on the wire: header, value, and padding bytes of any content. */
  datatype Tlv = Tlv(field: Field, pad: seq<u8>)

  predicate TlvOk(t: Tlv)
  {
    && FieldOk(t.field)
    && |t.pad| == Align4_16(|Value(t.field)|) - |Value(t.field)|
  }

  function EncodeTlv(t: Tlv): (b: seq<u8>)
    requires FieldOk(t.field)
  {
    var v := Value(t.field);
    EncodeNfAttr(NfAttr(|v| + NfAttrSize, Tag(t.field))) + v + t.pad
  }

  predicate AllOk(ts: seq<Tlv>)
  {
    forall i :: 0 <= i < |ts| ==> TlvOk(ts[i])
  }

  function EncodeTlvs(ts: seq<Tlv>): seq<u8>
    requires AllOk(ts)
  {
    if ts == [] then [] else EncodeTlv(ts[0]) + EncodeTlvs(ts[1..])
  }

  /** The record after setting the fields of ts in order, the later one winning. */
  function SetAll(m: Msg, ts: seq<Tlv>): Msg
    decreases |ts|
  {
    if ts == [] then m else SetAll(Set(m, ts[0].field), ts[1..])
  }

  lemma TagSelectsKind(f: Field)
    requires FieldOk(f)
    ensures KindOf(Tag(f)) == Kind(f)
  {
  }

  /** Each typed value comes back out of the decoder's Store unchanged. */
  lemma {:induction false} StoreOfEncoded(m: Msg, f: Field)
    requires FieldOk(f)
    ensures ValueFits(KindOf(Tag(f)), |Value(f)|)
    ensures Store(m, Tag(f), Value(f)) == Set(m, f)
  {
    match f
    case Uid(x) => BE32Of(x);
    case Gid(x) => BE32Of(x);
    case InDev(x) => BE32Of(x);
    case OutDev(x) => BE32Of(x);
    case Mark(x) => BE32Of(x);
    case HwType(t) => BE16Of(t);
    case Time(ts) =>
      var sec, usec := BE64(AsUint64(ts.sec)), BE64(AsUint64(ts.usec));
      assert Value(f) == [] + sec + usec;
      BE64At([], AsUint64(ts.sec), usec);
      assert Value(f) == sec + usec + [];
      BE64At(sec, AsUint64(ts.usec), []);
    case Prefix(text) =>
      assert (text + [0])[..|text|] == text;
    case _ =>
  }

  /** An encoded attribute is read back with its tag and value, and the cursor lands right after its padding. */
  lemma {:induction false} NextAttrOfEncoded(t: Tlv, rest: seq<u8>)
    requires TlvOk(t)
    ensures NextAttr(EncodeTlv(t) + rest) == Ok(Step(Tag(t.field), Value(t.field), |EncodeTlv(t)|))
  {
    var v := Value(t.field);
    var b := EncodeTlv(t) + rest;
    var hdr := NfAttr(|v| + NfAttrSize, Tag(t.field));
    assert b == [] + EncodeNfAttr(hdr) + (v + t.pad + rest);
    NfAttrRoundTrip([], hdr, v + t.pad + rest);
    StoreOfEncoded(Blank(0, 0), t.field);
    assert Check(hdr, |b| - NfAttrSize).None?;
    assert Min(|v|, |b| - NfAttrSize) == |v|;
    assert b[NfAttrSize..NfAttrSize + |v|] == v;
  }

  /** Round trip: decoding an encoded attribute stream sets exactly the encoded fields, in order. */
  lemma {:induction false} DecodeEncodedAttrs(ts: seq<Tlv>, m: Msg)
    requires AllOk(ts)
    ensures DecodeAttrs(EncodeTlvs(ts), m) == Ok(SetAll(m, ts))
    decreases |ts|
  {
    if ts != [] {
      var t := ts[0];
      var tail := EncodeTlvs(ts[1..]);
      var b := EncodeTlv(t) + tail;
      assert EncodeTlvs(ts) == b;
      NextAttrOfEncoded(t, tail);
      StoreOfEncoded(m, t.field);
      assert b[|EncodeTlv(t)|..] == tail;
      DecodeEncodedAttrs(ts[1..], Set(m, t.field));
    }
  }

  /**
   * A whole packet body: the header carries the group in network order and
   * the decoded record has that family and group, and exactly the fields encoded.
   */
  lemma {:induction false} DecodeEncodedPacket(family: u8, version: u8, group: u16, ts: seq<Tlv>)
    requires AllOk(ts)
    ensures DecodePacket(EncodeNfGenMsg(NfGenMsg(family, version, Htons(group))) + EncodeTlvs(ts))
         == Ok(SetAll(Blank(family, group), ts))
  {
    var header := NfGenMsg(family, version, Htons(group));
    var body := EncodeNfGenMsg(header) + EncodeTlvs(ts);
    assert body == [] + EncodeNfGenMsg(header) + EncodeTlvs(ts);
    NfGenMsgRoundTrip([], header, EncodeTlvs(ts));
    HtonsInvolution(group);
    assert body[NfGenMsgSize..] == EncodeTlvs(ts);
    DecodeEncodedAttrs(ts, Blank(family, group));
  }

  /** Forward compatibility: an attribute with an unhandled tag is skipped and decoding goes on. */
  lemma {:induction false} UnknownAttrSkipped(t: Tlv, rest: seq<u8>, m: Msg)
    requires TlvOk(t) && t.field.Other?
    ensures DecodeAttrs(EncodeTlv(t) + rest, m) == DecodeAttrs(rest, m)
  {
    NextAttrOfEncoded(t, rest);
    StoreOfEncoded(m, t.field);
    DropFront(EncodeTlv(t), rest);
  }

  /** Whether the record holds a value for the field of kind k. */
  predicate Present(m: Msg, k: AttrKind)
  {
    match k
    case UidAttr => m.uid.Some?
    case GidAttr => m.gid.Some?
    case InDevAttr => m.inDev.Some?
    case OutDevAttr => m.outDev.Some?
    case MarkAttr => m.mark.Some?
    case HwAddrAttr => m.hwAddr.Some?
    case HwTypeAttr => m.macLayerType.Some?
    case TimestampAttr => m.timestamp.Some?
    case PrefixAttr => m.prefix.Some?
    case PayloadAttr => m.payload.Some?
    case HwHeaderAttr => m.macLayer.Some?
    case OtherAttr => false
  }

  /** Two records agree on the field of kind k. */
  predicate SameField(m: Msg, n: Msg, k: AttrKind)
  {
    match k
    case UidAttr => m.uid == n.uid
    case GidAttr => m.gid == n.gid
    case InDevAttr => m.inDev == n.inDev
    case OutDevAttr => m.outDev == n.outDev
    case MarkAttr => m.mark == n.mark
    case HwAddrAttr => m.hwAddr == n.hwAddr
    case HwTypeAttr => m.macLayerType == n.macLayerType
    case TimestampAttr => m.timestamp == n.timestamp
    case PrefixAttr => m.prefix == n.prefix
    case PayloadAttr => m.payload == n.payload
    case HwHeaderAttr => m.macLayer == n.macLayer
    case OtherAttr => true
  }

  /** Setting a field leaves family, group and every field of another kind as they were. */
  lemma SetFrame(m: Msg, f: Field, k: AttrKind)
    ensures Set(m, f).family == m.family && Set(m, f).group == m.group
    ensures Kind(f) != k ==> SameField(Set(m, f), m, k)
    ensures Present(Set(m, f), k) <==> Present(m, k) || (k != OtherAttr && Kind(f) == k)
  {
  }

  /** A field whose kind never occurs in the stream keeps the value it had. */
  lemma {:induction false} SetAllUntouched(m: Msg, ts: seq<Tlv>, k: AttrKind)
    requires forall i :: 0 <= i < |ts| ==> Kind(ts[i].field) != k
    ensures SameField(SetAll(m, ts), m, k)
    ensures SetAll(m, ts).family == m.family && SetAll(m, ts).group == m.group
    decreases |ts|
  {
    if ts != [] {
      SetFrame(m, ts[0].field, k);
      SetAllUntouched(Set(m, ts[0].field), ts[1..], k);
    }
  }

  /** In a fresh record a field is present exactly when an attribute of its kind occurred. */
  lemma {:induction false} PresentIffOccurs(m: Msg, ts: seq<Tlv>, k: AttrKind)
    requires k != OtherAttr
    ensures Present(SetAll(m, ts), k) <==> Present(m, k) || exists i :: 0 <= i < |ts| && Kind(ts[i].field) == k
    decreases |ts|
  {
    if ts != [] {
      SetFrame(m, ts[0].field, k);
      PresentIffOccurs(Set(m, ts[0].field), ts[1..], k);
      if exists i :: 0 <= i < |ts[1..]| && Kind(ts[1..][i].field) == k {
        var i :| 0 <= i < |ts[1..]| && Kind(ts[1..][i].field) == k;
        assert Kind(ts[i + 1].field) == k;
      }
      if exists i :: 0 <= i < |ts| && Kind(ts[i].field) == k {
        var i :| 0 <= i < |ts| && Kind(ts[i].field) == k;
        if i > 0 {
          assert Kind(ts[1..][i - 1].field) == k;
        }
      }
    }
  }

  /** Attributes of different kinds may come in either order. */
  lemma SetCommutes(m: Msg, f: Field, g: Field)
    requires Kind(f) != Kind(g)
    ensures Set(Set(m, f), g) == Set(Set(m, g), f)
  {
  }

  /**
   * An attribute with an unhandled tag whose value runs past the end of the
   * body ends the walk without error: the cursor is moved to the end and the
   * record is kept as it is.
   */
  lemma UnknownOverrunEnds(rest: seq<u8>, m: Msg)
    requires |rest| >= NfAttrSize
    requires KindOf(DecodeNfAttr(rest, 0).value.attrType) == OtherAttr
    requires DecodeNfAttr(rest, 0).value.len >= NfAttrSize
    requires DecodeNfAttr(rest, 0).value.len > |rest|
    ensures DecodeAttrs(rest, m) == Ok(m)
  {
    var h := DecodeNfAttr(rest, 0).value;
    assert Align4_16(h.len - NfAttrSize) >= h.len - NfAttrSize;
    var s := NextAttr(rest).value;
    assert s.consumed == |rest|;
    assert rest[s.consumed..] == [];
  }

  /** Tag 99 with Len 100 and only two value bytes left: the record keeps its family and group. */
  lemma UnknownOverrunExample()
    ensures DecodePacket([2, 0, 0, 0, 100, 0, 99, 0, 7, 7]) == Ok(Blank(2, 0))
  {
    var body: seq<u8> := [2, 0, 0, 0, 100, 0, 99, 0, 7, 7];
    assert body[NfGenMsgSize..] == [100, 0, 99, 0, 7, 7];
    UnknownOverrunEnds([100, 0, 99, 0, 7, 7], Blank(2, 0));
  }

  /** The prefix "DROP" with its NUL, padded to 8 bytes, then a three-byte payload padded to 4. */
  function DropAttrs(pad1: seq<u8>, pad2: seq<u8>): (ts: seq<Tlv>)
    requires |pad1| == 3 && |pad2| == 1
    ensures AllOk(ts)
  {
    var ts := [Tlv(Prefix([0x44, 0x52, 0x4F, 0x50]), pad1), Tlv(Payload([0xAA, 0xBB, 0xCC]), pad2)];
    assert |Value(ts[0].field)| == 5 && Align4_16(5) == 8;
    assert |Value(ts[1].field)| == 3 && Align4_16(3) == 4;
    ts
  }

  /**
   * A packet carrying the prefix "DROP" and a three-byte payload, with any
   * padding bytes, decodes to a record with that prefix, that payload and
   * no other field.
   */
  lemma DropExample(family: u8, version: u8, group: u16, pad1: seq<u8>, pad2: seq<u8>)
    requires |pad1| == 3 && |pad2| == 1
    ensures DecodePacket(EncodeNfGenMsg(NfGenMsg(family, version, Htons(group))) + EncodeTlvs(DropAttrs(pad1, pad2)))
         == Ok(Blank(family, group).(prefix := Some([0x44, 0x52, 0x4F, 0x50]), payload := Some([0xAA, 0xBB, 0xCC])))
  {
    var ts := DropAttrs(pad1, pad2);
    DecodeEncodedPacket(family, version, group, ts);
    var b := Blank(family, group);
    var once := Set(b, ts[0].field);
    var twice := Set(once, ts[1].field);
    assert ts[1..][0] == ts[1] && ts[1..][1..] == [];
    assert SetAll(once, ts[1..]) == SetAll(twice, []) == twice;
    assert SetAll(b, ts) == SetAll(once, ts[1..]);
  }

  /** The same two attributes in the other order, payload first, decode to the same record. */
  lemma DropExampleSwapped(family: u8, version: u8, group: u16, pad1: seq<u8>, pad2: seq<u8>)
    requires |pad1| == 3 && |pad2| == 1
    ensures var ts := DropAttrs(pad1, pad2);
            var swapped := [ts[1], ts[0]];
            && AllOk(swapped)
            && DecodePacket(EncodeNfGenMsg(NfGenMsg(family, version, Htons(group))) + EncodeTlvs(swapped))
               == Ok(Blank(family, group).(prefix := Some([0x44, 0x52, 0x4F, 0x50]), payload := Some([0xAA, 0xBB, 0xCC])))
  {
    var ts := DropAttrs(pad1, pad2);
    var swapped := [ts[1], ts[0]];
    assert AllOk(swapped) by {
      assert TlvOk(ts[0]) && TlvOk(ts[1]);
    }
    DecodeEncodedPacket(family, version, group, swapped);
    DropExample(family, version, group, pad1, pad2);
    var b := Blank(family, group);
    var once := Set(b, ts[1].field);
    var twice := Set(once, ts[0].field);
    assert swapped[1..][0] == ts[0] && swapped[1..][1..] == [];
    assert SetAll(once, swapped[1..]) == SetAll(twice, []) == twice;
    assert SetAll(b, swapped) == SetAll(once, swapped[1..]);
    assert ts[1..][0] == ts[1] && ts[1..][1..] == [];
    assert SetAll(b, ts) == Set(Set(b, ts[0].field), ts[1].field);
    SetCommutes(b, ts[0].field, ts[1].field);
  }
}
