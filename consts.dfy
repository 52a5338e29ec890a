/** Protocol constants of nfnetlink and nfnetlink_log (consts.go). */
module Consts {
  import opened Bytes

  const NFNETLINK_V0: u8 := 0

  const NLM_F_REQUEST: u16 := 1
  const NLM_F_ACK: u16 := 4

  const NFNL_SUBSYS_ULOG: u8 := 4

  // message kinds within the ULOG subsystem
  const NFULNL_MSG_PACKET: u8 := 0
  const NFULNL_MSG_CONFIG: u8 := 1
  const NFULNL_MSG_MAX: u8 := 2

  // configuration attribute tags
  const NFULA_CFG_UNSPEC: u16 := 0
  const NFULA_CFG_CMD: u16 := 1
  const NFULA_CFG_MODE: u16 := 2
  const NFULA_CFG_NLBUFSIZ: u16 := 3
  const NFULA_CFG_TIMEOUT: u16 := 4
  const NFULA_CFG_QTHRESH: u16 := 5
  const NFULA_CFG_FLAGS: u16 := 6
  const NFULA_CFG_MAX: u16 := 7

  // configuration commands, numbered in declaration order (Go's iota)
  const NFULNL_CFG_CMD_NONE: u8 := 0
  const NFULNL_CFG_CMD_BIND: u8 := 1
  const NFULNL_CFG_CMD_UNBIND: u8 := 2
  const NFULNL_CFG_CMD_PF_BIND: u8 := 3
  const NFULNL_CFG_CMD_PF_UNBIND: u8 := 4

  // copy modes
  const NFULNL_COPY_NONE: u8 := 0x00
  const NFULNL_COPY_META: u8 := 0x01
  const NFULNL_COPY_PACKET: u8 := 0x02

  // packet attribute tags
  const NFULA_PACKET_HDR: u16 := 1
  const NFULA_MARK: u16 := 2
  const NFULA_TIMESTAMP: u16 := 3
  const NFULA_IFINDEX_INDEV: u16 := 4
  const NFULA_IFINDEX_OUTDEV: u16 := 5
  const NFULA_IFINDEX_PHYSINDEV: u16 := 6
  const NFULA_IFINDEX_PHYSOUTDEV: u16 := 7
  const NFULA_HWADDR: u16 := 8
  const NFULA_PAYLOAD: u16 := 9
  const NFULA_PREFIX: u16 := 10
  const NFULA_UID: u16 := 11
  const NFULA_SEQ: u16 := 12
  const NFULA_SEQ_GLOBAL: u16 := 13
  const NFULA_GID: u16 := 14
  const NFULA_HWTYPE: u16 := 15
  const NFULA_HWHEADER: u16 := 16
  const NFULA_HWLEN: u16 := 17

  /** The 16-bit netlink message type `(subsys << 8) | kind`. */
  function MsgType(subsys: u8, kind: u8): (t: u16)
    ensures t / 0x100 == subsys && t % 0x100 == kind
  {
    subsys as int * 0x100 + kind as int
  }

  /** Type of the packet events the kernel sends. */
  const PacketMsgType: u16 := MsgType(NFNL_SUBSYS_ULOG, NFULNL_MSG_PACKET)

  /** Type of the configuration messages the client sends. */
  const ConfigMsgType: u16 := MsgType(NFNL_SUBSYS_ULOG, NFULNL_MSG_CONFIG)

  lemma MessageTypeValues()
    ensures PacketMsgType == 0x0400 && ConfigMsgType == 0x0401
    ensures PacketMsgType != ConfigMsgType
  {
  }

  /** The packet attribute tags, in declaration order. */
  const PacketAttrTags: seq<u16> := [
    NFULA_PACKET_HDR, NFULA_MARK, NFULA_TIMESTAMP, NFULA_IFINDEX_INDEV,
    NFULA_IFINDEX_OUTDEV, NFULA_IFINDEX_PHYSINDEV, NFULA_IFINDEX_PHYSOUTDEV,
    NFULA_HWADDR, NFULA_PAYLOAD, NFULA_PREFIX, NFULA_UID, NFULA_SEQ,
    NFULA_SEQ_GLOBAL, NFULA_GID, NFULA_HWTYPE, NFULA_HWHEADER, NFULA_HWLEN]

  /** Tags 1..17 are numbered consecutively, hence pairwise distinct. */
  lemma PacketAttrTagsDistinct()
    ensures |PacketAttrTags| == 17
    ensures forall i :: 0 <= i < 17 ==> PacketAttrTags[i] == i + 1
    ensures forall i, j :: 0 <= i < j < 17 ==> PacketAttrTags[i] != PacketAttrTags[j]
  {
  }

  /** Commands none, bind, unbind, pf-bind, pf-unbind are 0..4 in that order. */
  lemma ConfigCommandValues()
    ensures [NFULNL_CFG_CMD_NONE, NFULNL_CFG_CMD_BIND, NFULNL_CFG_CMD_UNBIND,
             NFULNL_CFG_CMD_PF_BIND, NFULNL_CFG_CMD_PF_UNBIND] == [0, 1, 2, 3, 4]
    ensures NFULA_CFG_CMD == 1 && NFULA_CFG_MODE == 2
    ensures [NFULNL_COPY_NONE, NFULNL_COPY_META, NFULNL_COPY_PACKET] == [0, 1, 2]
  {
  }
}
