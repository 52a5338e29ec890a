# nflog in Dafny

A model of the core of nflog. nflog is a Go client for Linux's nfnetlink_log interface, which delivers packets logged by the netfilter NFLOG target to user space over a netlink socket.

The model covers four things:

- **Session setup (`New`).** It validates the configuration, opens the socket, and runs a handshake. The handshake unbinds and binds the AF_INET protocol family, then binds each group and sets its copy mode. Every request carries the session's sequence counter. The first failing send or reply read closes the socket; when `socket()` itself fails there is nothing to close.
- **Receive loop (`readNFMsg`), one turn.** A datagram is split into netlink messages, and packet events become records. Read errors and parse errors are reported only when the configuration asks for it. A read error ends the loop, except ENOBUFS.
- **Message splitting (`parseNFMsg`).** It walks the netlink messages of a datagram and hands packet events to the packet decoder.
- **Packet decoding (`parseNFPacket`).** It reads the nfgenmsg header and then the type-length-value attribute stream, with its 4-byte alignment. Each handled attribute fills one optional field of the record; unknown tags are skipped.

The wire records are modelled too:

- the netlink header, nfgenmsg and nfattr;
- the 25-byte config command and the 30-byte config mode request;
- their packed little-endian layout, and the network-order fields written through a byte swap (`htons`).

The constants, the two `align4` helpers, the configuration and its validation, and the three error kinds with their message prefixes are modelled as well.

## How the model is organised

Modules follow the source files:

| module | source |
|---|---|
| `Consts` | consts.go |
| `Helpers` | helpers.go |
| `Errors` | errors.go |
| `Configuration` | config.go |
| `Types` | types.go |
| `Packet`, `PacketFields` | parseNFPacket |
| `Messages` | parseNFMsg |
| `Receive` | readNFMsg |
| `Session` | New, sendNFConfigCmd and sendNFConfigMode |

`Bytes` holds the little- and big-endian codecs that Go's `encoding/binary` provides. `Wrappers` holds `Option` and `Result`.

The code that changes state is imperative Dafny:

- **`Session`** is classes. `NFLog` holds the `nextSeq` counter, which the send methods advance with uint32 wrap-around. `Socket` stands for the netlink socket: its system calls return outcomes fixed in advance, and it records what was sent.
- **`ParseNFMsg` and `ParseNFPacket`** are methods with loops over a cursor. Each is proved equal to a specification function: `Split` and `DecodePacket`. Round-trip and framing lemmas then give those functions their meaning.

The pure files (`consts.go`, `helpers.go`, `errors.go`, `config.go`, `types.go`) are functions and lemmas.

### Behaviour the source leaves unguarded

For malformed input, the Go code may hang, panic, keep zero bytes, or go on decoding from a point the attribute headers did not announce. The model makes these choices:

- **Fewer than 16 bytes left in `parseNFMsg`.** The header read fails, so Len reads as 0 and the loop never advances. The model returns `ShortHeader`.
- **A non-packet header with Len 0 in `parseNFMsg`.** The loop never advances here either. The model returns `BadLength(0)`. A packet-event header with Len 0 is covered by the next item.
- **A packet-event header with Len below 16.** Slicing `buffer[16:msgLen]` panics. The model returns `BadLength(len)`.
- **An attribute with Len below 4.** `Len - 4` wraps around in uint16, and Go's behaviour depends on the tag:
  - PREFIX, PAYLOAD and HWHEADER: Len 1 to 3 panics on the slice. With Len 0, the value is padded with zeros.
  - Fixed-size fields: the fixed width is read anyway.
  - A skipped tag: Len 1 to 3 seeks 0 bytes and decoding goes on from the next 4 bytes. Len 0 seeks past the end, and the record is delivered.
  - The model returns `MalformedAttr` for all of these.
- **A handled attribute whose value runs past the buffer.** For PREFIX, PAYLOAD and HWHEADER, Go would keep zero bytes in place of the missing ones. For the fixed-size fields, the short `binary.Read` would leave the field zero. The model returns `MalformedAttr`.
- **A skipped attribute whose value runs past the buffer.** The model follows the source: the `Seek` moves the cursor to the end, decoding ends, and the record is delivered without error.
- **An empty PREFIX, where dropping the NUL underflows.** The model returns `MalformedAttr`.
- **A fixed-size attribute whose declared size differs from the size the code reads.** Go reads the fixed width anyway and goes on decoding from there, inside or past the declared value. The model returns `MalformedAttr`.
- **An attribute header cut short.** The model returns `UnexpectedEof`, which is what `binary.Read` returns there.
- **A packet body shorter than its 4-byte header.** The model follows the source: family and group stay 0, and no attribute is read.
- **A padded value cut off by the end of the buffer.** The model follows the source and moves the cursor to the end. A short `Read` or a `Seek` past the end does the same.

## Model

| member | source | states |
|---|---|---|
| Consts.MsgType | consts.go:8-11 | the netlink message type is the subsystem in the high byte and the message kind in the low byte |
| Consts.MessageTypeValues | consts.go:8-11 | a packet event is type 0x0400 and a config request is type 0x0401 |
| Consts.PacketAttrTagsDistinct | consts.go:35-51 | the seventeen packet attribute tags are numbered 1 to 17 in declaration order, so no two coincide |
| Consts.ConfigCommandValues | consts.go:14-33 | the config commands are numbered NONE=0, BIND=1, UNBIND=2, PF_BIND=3, PF_UNBIND=4; the CMD and MODE attributes are 1 and 2; the copy modes are 0, 1, 2 |
| Helpers.Align4_32 | helpers.go:3-5 | the result is the least multiple of 4 that is at least v, taken modulo 2^32 (so it is 0 for v above 0xFFFFFFFC) |
| Helpers.Align4_16 | helpers.go:7-9 | the same for uint16: the least multiple of 4 that is at least v, modulo 2^16 |
| Helpers.Align4Idempotent | helpers.go:3-9 | aligning an aligned value changes nothing, at both widths |
| Helpers.Align4WidthsAgree | helpers.go:3-9 | on values that do not wrap, the 16-bit and 32-bit helpers agree |
| Errors.Error | errors.go:8-28 | an error's text starts with "nflog: ", ends with the message unchanged, and is exactly its kind's prefix longer than the message |
| Errors.PrefixesExclusive | errors.go:8-28 | no error text of one kind starts with another kind's prefix |
| Errors.ClassifyError | errors.go:8-28 | the kind and the message can be recovered from the text alone |
| Errors.ErrorInjective | errors.go:8-28 | two errors with the same text are the same error |
| Configuration.NewConfig | config.go:22-24 | a new configuration has no groups, copy range 0 and error delivery off, and it fails validation with "No groups defined" |
| Configuration.Validate | config.go:27-37 | a configuration is accepted exactly when it has 1 to 32 groups; otherwise it is rejected with the source's two messages |
| Configuration.ValidateDependsOnCountOnly | config.go:27-37 | validation looks only at the number of groups, not at their values, the copy range or error delivery |
| Bytes.Htons | nflog.go:192 | the byte swap stores a uint16 so that its little-endian bytes are the value's big-endian bytes |
| Bytes.HtonsInvolution | nflog.go:192 | swapping twice gives the value back |
| Bytes.HtonsOfLE16IsBE16 | nflog.go:191-192 | a group read little-endian from network-order bytes and then swapped is the big-endian reading of those bytes |
| Bytes.LE16At | types.go:5-11 | a uint16 written little-endian anywhere in a buffer is read back at that offset |
| Bytes.LE32At | types.go:5-11 | the same for uint32 |
| Bytes.BE16At | nflog.go:232-235 | a uint16 written big-endian is read back by the big-endian reader |
| Bytes.BE32At | nflog.go:212-227 | the same for the uint32 attributes |
| Bytes.BE64At | nflog.go:245-251 | the same for the 64-bit halves of the timestamp |
| Bytes.AsInt64 | nflog.go:246-249 | a 64-bit pattern is read as a two's complement int64 in range |
| Types.EncodeNlMsgHdr | types.go:5-11 | the netlink header packs into 16 bytes |
| Types.DecodeNlMsgHdr | types.go:5-11 | a header can be read exactly when 16 bytes are left at the offset |
| Types.NlMsgHdrRoundTrip | types.go:5-11 | reading back an encoded header, at any offset and with anything after it, gives the same header |
| Types.EncodeNfGenMsg | types.go:13-17 | nfgenmsg packs into 4 bytes |
| Types.DecodeNfGenMsg | types.go:13-17 | it can be read exactly when 4 bytes are left |
| Types.NfGenMsgRoundTrip | types.go:13-17 | reading back an encoded nfgenmsg gives the same value |
| Types.ResIdInNetworkOrder | types.go:13-17 | a resource id stored through htons goes on the wire in big-endian order |
| Types.EncodeNfAttr | types.go:19-22 | an attribute header packs into 4 bytes |
| Types.DecodeNfAttr | types.go:19-22 | it can be read exactly when 4 bytes are left |
| Types.NfAttrRoundTrip | types.go:19-22 | reading back an encoded attribute header gives the same header |
| Types.EncodeConfigCmd | types.go:34-39 | a config command request is 25 bytes |
| Types.DecodeConfigCmd | types.go:34-39 | a config command can be read exactly when 25 bytes are there |
| Types.ConfigCmdRoundTrip | types.go:24-39 | reading back an encoded config command gives the same header, body, attribute and command |
| Types.EncodeModePayload | types.go:28-32 | the mode payload (range, mode, pad) is 6 bytes |
| Types.EncodeConfigMode | types.go:41-46 | a config mode request is 30 bytes |
| Types.DecodeConfigMode | types.go:41-46 | a config mode can be read exactly when 30 bytes are there |
| Types.ConfigModeRoundTrip | types.go:28-46 | reading back an encoded config mode gives the same request, range and mode included |
| Packet.KindOf | nflog.go:203-254 | an attribute is skipped exactly when its tag is not one of the eleven tags the switch handles |
| Packet.Check | nflog.go:196-254 | an attribute header is accepted exactly when its length is at least 4, its size suits its kind, and its value fits in the buffer or its tag is one the switch skips; a rejection is MalformedAttr for that tag |
| Packet.Store | nflog.go:203-254 | storing an attribute never changes family or group, and a skipped tag leaves the record as it was (what each handled tag stores: PacketFields.StoreOfEncoded) |
| Packet.NextAttr | nflog.go:195-254 | one attribute gives the header's tag and its Len - 4 value bytes, taken from right after the header (for a skipped tag, as many of them as the buffer holds); the cursor moves over the padded value, or to the end of the buffer; a short header fails with UnexpectedEof, and a full header fails exactly when Check rejects it |
| Packet.DecodeAttrs | nflog.go:194-255 | decoding the attribute stream never changes the family or group it started from (its meaning on encoded streams: PacketFields.DecodeEncodedAttrs) |
| Packet.DecodePacket | nflog.go:183-261 | a body shorter than its header gives an empty record with family and group 0; otherwise the family is the first byte and the group the big-endian reading of bytes 2-3 |
| Packet.ReadAttr | nflog.go:195-254 | one loop iteration, the switch included, fails exactly as the attribute reader does, and otherwise advances by its step and stores the value in the field its tag selects |
| Packet.ParseNFPacket | nflog.go:183-261 | the cursor loop yields exactly the decoding of the body: the header, then every attribute in order, or the first error |
| PacketFields.TagSelectsKind | consts.go:35-51 | each field is written under the tag that the decoder dispatches to that field |
| PacketFields.StoreOfEncoded | nflog.go:204-251 | each typed value, big-endian scalar, timestamp, hardware address or NUL-terminated prefix, encoded as the kernel sends it, is stored back unchanged in its own field |
| PacketFields.NextAttrOfEncoded | nflog.go:195-254 | an encoded attribute is read back with its tag and value, and the cursor lands right after its padding |
| PacketFields.DecodeEncodedAttrs | nflog.go:195-255 | an encoded attribute stream decodes to the record with exactly the encoded fields set, in stream order |
| PacketFields.DecodeEncodedPacket | nflog.go:183-261 | a packet body decodes to a record with the header's family, the group in host order, and the encoded fields |
| PacketFields.UnknownAttrSkipped | nflog.go:252-253 | an attribute with an unhandled tag is skipped over, padding included, and decoding goes on unchanged |
| PacketFields.UnknownOverrunEnds | nflog.go:252-253 | an attribute with a skipped tag whose value runs past the body ends decoding without error, with the record unchanged |
| PacketFields.UnknownOverrunExample | nflog.go:183-261 | the body 2,0,0,0, 100,0,99,0, 7,7 (tag 99, Len 100, two bytes left) decodes to a record with family 2, group 0 and no other field |
| PacketFields.SetFrame | nflog.go:190-251 | storing one attribute changes its own field only; family and group stay put |
| PacketFields.SetAllUntouched | nflog.go:190-251 | a field whose kind never occurs in the stream keeps its value |
| PacketFields.PresentIffOccurs | nflog.go:190-251 | in a decoded record a field is present exactly when an attribute of its kind occurred |
| PacketFields.SetCommutes | nflog.go:195-255 | attributes of different kinds may arrive in either order with the same result |
| PacketFields.DropAttrs | nflog.go:204-211 | the sample attributes, a "DROP" prefix and a three-byte payload, are well formed |
| PacketFields.DropExample | nflog.go:204-211 | a body with prefix "DROP" and a three-byte payload decodes to just that prefix, without its NUL, and that payload |
| PacketFields.DropExampleSwapped | nflog.go:195-255 | the same DROP attributes in the other order, payload first, decode to the same record |
| Messages.ParseErrorText | nflog.go:165-174 | the error texts are "message was truncated" and "failed to parse NFPacket: " followed by the packet error |
| Messages.Split | nflog.go:155-181 | every record comes from a message of at least 16 bytes, so a datagram of n bytes yields at most n / 16 records (its step: Messages.SplitStep) |
| Messages.SplitStep | nflog.go:155-181 | one step of the split: a Len past the end stops it with Truncated, an unusable Len with BadLength, a packet event is decoded and recorded or stops it with its error, anything else is stepped over by its Len |
| Messages.ParseNFMsg | nflog.go:155-181 | the loop over the datagram yields exactly the records and the error of the split |
| Messages.EncodeFrame | nflog.go:163-177 | an encoded message is its body plus the 16 header bytes that its Len counts |
| Messages.FrontFrame | nflog.go:155-177 | a well-formed message at the front of a datagram is read by its header and stepped over by exactly its length |
| Messages.SplitFrame | nflog.go:155-177 | splitting a datagram that starts with a message gives that message's record, if any, before the rest |
| Messages.SplitFrames | nflog.go:155-181 | a datagram of well-formed messages followed by anything splits into those messages' records in order, then whatever the rest gives |
| Messages.SplitWholeDatagram | nflog.go:155-181 | a datagram made of well-formed messages gives their records in order and no error |
| Messages.TruncatedAfterFrames | nflog.go:165-167 | a message whose Len runs past the datagram stops the split with "truncated", after the records before it |
| Messages.PacketFailureReported | nflog.go:170-174 | a packet event that fails to decode stops the split with that packet error, after the records before it |
| Messages.SourcePass | nflog.go:156-177 | one pass of the loop as written, with the packet decoder taken from the model, either returns, panics, or goes round with a suffix of the buffer |
| Messages.SourcePassStalls | nflog.go:156-177 | one pass of the loop as written returns with the very same buffer when fewer than 16 bytes remain or a non-packet Len is 0 |
| Messages.SourceStallExample | nflog.go:156-177 | the one-byte datagram [1] is such an input |
| Messages.StallReported | nflog.go:156-177 | on those inputs the split ends with an error, after the records of the messages before them |
| Messages.SplitFollowsSourcePass | nflog.go:156-177 | wherever the loop as written makes progress, the split takes the same step |
| Messages.SplitAgreesOnReturn | nflog.go:156-177 | wherever the loop as written returns an error, the split ends with the same error and no record |
| Receive.ReceiveStep | nflog.go:129-153 | one read: a datagram hands on its records in order and then its parse error, and reading goes on; a read error is reported and ends the loop unless it is ENOBUFS; reports only when error delivery is on |
| Receive.QuietWithoutReturnErrors | nflog.go:136-150 | with error delivery off only records are handed on |
| Receive.EveryFailureReported | nflog.go:136-150 | with error delivery on, each failed read and each unparsable datagram gives exactly one report |
| Session.Socket.Open | nflog.go:37-40 | socket() returns its scripted outcome and the socket is open exactly when it succeeds |
| Session.Socket.Sendto | nflog.go:94-97 | a send returns its scripted outcome; only a successful send puts the request on the wire |
| Session.Socket.Recvfrom | nflog.go:101-104 | a reply read returns its scripted outcome and is otherwise dropped |
| Session.Socket.Close | nflog.go:45 | closing leaves the socket closed and its history as it was |
| Session.NFLog.constructor | nflog.go:32 | a new session starts with sequence number 0 |
| Session.NFLog.Exchange | nflog.go:85-127 | a request goes out stamped with the current counter; the counter advances by one with uint32 wrap-around even when the send fails; the reply is read only after a successful send |
| Session.NFLog.SendNFConfigCmd | nflog.go:85-105 | a config command is stamped, sent and answered as in Exchange |
| Session.NFLog.SendNFConfigMode | nflog.go:107-127 | a config mode is stamped, sent and answered as in Exchange |
| Session.GroupSteps | nflog.go:56-70 | two requests per group |
| Session.Plan | nflog.go:42-70 | the handshake sends 2 + 2 * groups requests (their order: Session.PlanShape) |
| Session.Stamp | nflog.go:87-89 | stamping keeps one outbound request per request (their numbers: Session.StampNumbers) |
| Session.GroupStepsShape | nflog.go:56-70 | each group, in the caller's order, gets a bind command and then a copy-mode request with the configured range |
| Session.PlanShape | nflog.go:42-70 | the handshake is PF_UNBIND and PF_BIND for AF_INET, then the group steps: 2 + 2 * groups requests |
| Session.PlanAddressesGroups | nflog.go:56-70 | after the two protocol-family commands, every request of the handshake addresses a configured group |
| Session.StampSnoc | nflog.go:87-89 | stamping one more request appends it with the next sequence number |
| Session.StampNumbers | nflog.go:87-89 | the i-th stamped request carries sequence number start + i, modulo 2^32 |
| Session.HandshakeNumbers | nflog.go:42-70 | a valid configuration's handshake uses sequence numbers 0, 1, 2, ... in order, one per request |
| Session.FirstFailure | nflog.go:42-70 | the handshake stops at the first step whose send or reply fails; every step before it succeeded |
| Session.FirstFailureIs | nflog.go:42-70 | that step is unique: any step that fails after an unbroken run of successes is the one found |
| Session.HandshakeStep | nflog.go:42-69 | one step either extends the run of successful requests or records the first failure with what was sent |
| Session.Handshake | nflog.go:42-70 | the handshake either sends the whole plan, or stops at the first failure with its errno |
| Session.New | nflog.go:24-75 | an invalid configuration is rejected before any socket exists; a failing socket() is returned; otherwise the whole plan goes out stamped 0, 1, 2, ... and the session is returned, or the first failing exchange closes the socket and its errno is returned, with exactly the requests sent before it on the wire |

## Findings

| source | as written | input that shows it | evidently intended | confidence | as-written member | corrected member |
|---|---|---|---|---|---|---|
| nflog.go:156-177 | a header read that fails leaves Len 0, and a Len of 0 is not rejected, so the loop goes round with the same buffer forever | the one-byte datagram [1], or a full non-packet header with Len 0 | the split stops with an error and reading goes on | high (not executed) | Messages.SourcePassStalls | Messages.StallReported |

`Messages.SourcePass` models one pass of the loop as written, with parseNFPacket replaced by the model's `DecodePacket`. The stall does not depend on that replacement: no packet body is decoded on the stalling inputs. `Messages.Split` is the corrected walk, and the rest of the model uses it.

## Left out

- Packet.Check: two kinds of input that the source decodes on without error are rejected with MalformedAttr. The first is a skipped tag with Len below 4: the source seeks 0 bytes, or past the end for Len 0. The second is a fixed-size attribute whose Len differs from its width: the source reads the width and goes on from there. On these inputs the source delivers a record and the model does not.
- Messages.SourcePass: the loop as written is modelled with the model's packet decoder in place of parseNFPacket. On the packet bodies listed under Packet.Check, SourcePass returns PacketFailed where the source panics (PREFIX, PAYLOAD or HWHEADER with Len 1 to 3) or goes on decoding (any other attribute with Len below 4, or a fixed-size field whose Len differs from its width). Messages.SplitAgreesOnReturn inherits this: its shared error can be one the source would not return.
- The receive loop itself is left out: its goroutine, the two channels, and the `defer` that closes the socket when the loop ends. The model gives one turn of the loop as `Receive.ReceiveStep`, which returns the records and reports that would be sent on the channels. Blocking on a channel that nobody reads is not modelled.
- The system calls `socket`, `sendto`, `recvfrom` and `close` are not modelled. `Session.Socket` stands in for them: each call returns an outcome fixed in advance, as an errno or success.
- The contents of the handshake replies are not modelled; the source reads them and never looks at them. The 2048-byte reply buffer and the 65536-byte receive buffer are not modelled either.
- The `Messages()` and `Errors()` accessors return the channels and are not modelled.
- `newNFConfigCmd` and `newNFConfigMode` are not part of this model, so the bytes of a request are not tied to its arguments. A `Session.Request` holds the constructor's arguments, and `Types` models the wire layout of the records those constructors fill.
- `Msg` and `HwAddr` are not part of this model. The record keeps each optional field as an `Option`. The hardware address is taken to be the kernel's 12-byte block, read whole.
- Texts that come from outside the model are parameters or are the model's own:
  - A read error's text, `err.Error()`, is a parameter.
  - The texts of `ShortHeader`, `BadLength` and `MalformedAttr` are the model's own, since the source has no such errors.
  - ENOBUFS is Linux's errno 105.
- `htons` is not part of this model. It is taken to be the byte swap of a little-endian host.
- Helpers.Align4_32: the bitwise and with 0xFFFFFFFC (or 0xFFFC) is written as `w - w % 4`, which clears the two low bits of the same wrapped sum.
- The front ends (`main.go`, `demo/`, `cmd/`) and the Go tests are not modelled.
