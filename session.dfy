/**
 * Opening a logging session (New, sendNFConfigCmd and sendNFConfigMode in
 * nflog.go). After validating the configuration, the client opens a
 * netlink socket and sends configuration requests one at a time, each
 * stamped with the session's sequence counter and each followed by a read
 * of the reply. The first failing send or reply read closes the socket and
 * ends the handshake; a failing socket() leaves nothing to close.
 */
module Session {
  import opened Wrappers
  import opened Bytes
  import opened Consts
  import opened Errors
  import opened Configuration

  /** syscall.AF_INET, the protocol family every command is sent for. */
  const AF_INET: u8 := 2

  /**
   * A configuration request, given by the arguments of the constructor that
   * builds it (newNFConfigCmd or newNFConfigMode); how those constructors
   * lay the arguments out is not part of this model.
   */
  datatype Request =
    | ConfigCmd(command: u8, family: u8, resId: u16)
    | ConfigMode(resId: u16, copyRange: u16)

  /** A request as handed to sendto, with the sequence number written into its header. */
  datatype Outbound = Outbound(req: Request, seqNo: u32)

  /** The outcome of the k-th call of one system call: an errno, or success past the end of the script. */
  function ResultAt(results: seq<Option<nat>>, k: nat): Option<nat>
  {
    if k < |results| then results[k] else None
  }

  /**
   * The netlink socket as the handshake sees it. The outcomes of the system
   * calls are fixed in advance: socket() by openResult, the k-th sendto by
   * sendResults and the k-th recvfrom by recvResults. Replies are read and
   * never inspected, so only their outcome matters.
   */
  class Socket {
    const openResult: Option<nat>
    const sendResults: seq<Option<nat>>
    const recvResults: seq<Option<nat>>
    var open: bool
    var closed: bool
    var sent: seq<Outbound>
    var sends: nat
    var recvs: nat

    constructor(openResult: Option<nat>, sendResults: seq<Option<nat>>, recvResults: seq<Option<nat>>)
      ensures this.openResult == openResult && this.sendResults == sendResults && this.recvResults == recvResults
      ensures !open && !closed && sent == [] && sends == 0 && recvs == 0
    {
      this.openResult := openResult;
      this.sendResults := sendResults;
      this.recvResults := recvResults;
      open, closed, sent, sends, recvs := false, false, [], 0, 0;
    }

    /** syscall.Socket(AF_NETLINK, SOCK_RAW, NETLINK_NETFILTER). */
    method Open() returns (err: Option<nat>)
      requires !open && !closed
      modifies this
      ensures err == openResult && open == err.None?
      ensures closed == old(closed) && sent == old(sent) && sends == old(sends) && recvs == old(recvs)
    {
      err := openResult;
      open := err.None?;
    }

    /** syscall.Sendto: a successful send puts the request on the wire. */
    method Sendto(o: Outbound) returns (err: Option<nat>)
      requires open
      modifies this
      ensures err == ResultAt(sendResults, old(sends))
      ensures sent == if err.None? then old(sent) + [o] else old(sent)
      ensures sends == old(sends) + 1
      ensures open && closed == old(closed) && recvs == old(recvs)
    {
      err := ResultAt(sendResults, sends);
      if err.None? {
        sent := sent + [o];
      }
      sends := sends + 1;
    }

    /** syscall.Recvfrom into a reply buffer that is then dropped. */
    method Recvfrom() returns (err: Option<nat>)
      requires open
      modifies this
      ensures err == ResultAt(recvResults, old(recvs))
      ensures recvs == old(recvs) + 1
      ensures open && closed == old(closed) && sent == old(sent) && sends == old(sends)
    {
      err := ResultAt(recvResults, recvs);
      recvs := recvs + 1;
    }

    /** syscall.Close. */
    method Close()
      requires open
      modifies this
      ensures !open && closed
      ensures sent == old(sent) && sends == old(sends) && recvs == old(recvs)
    {
      open, closed := false, true;
    }
  }

  /** Why New failed: the configuration, or the errno of a system call. */
  datatype NewError = Invalid(e: NflogError) | Syscall(errno: nat)

  /** A session: its socket, its configuration and the sequence counter (a Go uint32). */
  class NFLog {
    var nextSeq: u32
    const conf: Config
    const sock: Socket

    constructor(conf: Config, sock: Socket)
      ensures this.conf == conf && this.sock == sock && nextSeq == 0
    {
      this.conf := conf;
      this.sock := sock;
      nextSeq := 0;
    }

    /**
     * The body shared by sendNFConfigCmd and sendNFConfigMode: stamp the
     * request with the counter, advance it with uint32 wrap-around, send, and on a
     * successful send wait for the reply.
     */
    method Exchange(req: Request) returns (err: Option<nat>)
      requires sock.open
      modifies this, sock
      ensures nextSeq == (old(nextSeq) + 1) % 0x1_0000_0000
      ensures sock.open && sock.closed == old(sock.closed) && sock.sends == old(sock.sends) + 1
      ensures ResultAt(sock.sendResults, old(sock.sends)).Some? ==>
                err == ResultAt(sock.sendResults, old(sock.sends))
                && sock.sent == old(sock.sent) && sock.recvs == old(sock.recvs)
      ensures ResultAt(sock.sendResults, old(sock.sends)).None? ==>
                err == ResultAt(sock.recvResults, old(sock.recvs))
                && sock.sent == old(sock.sent) + [Outbound(req, old(nextSeq))]
                && sock.recvs == old(sock.recvs) + 1
    {
      var stamped := Outbound(req, nextSeq);
      nextSeq := (nextSeq + 1) % 0x1_0000_0000;
      err := sock.Sendto(stamped);
      if err.Some? {
        return;
      }
      err := sock.Recvfrom();
    }

    /** sendNFConfigCmd: a command for a protocol family or a group. */
    method SendNFConfigCmd(cmd: u8, family: u8, resId: u16) returns (err: Option<nat>)
      requires sock.open
      modifies this, sock
      ensures nextSeq == (old(nextSeq) + 1) % 0x1_0000_0000
      ensures sock.open && sock.closed == old(sock.closed) && sock.sends == old(sock.sends) + 1
      ensures ResultAt(sock.sendResults, old(sock.sends)).Some? ==>
                err == ResultAt(sock.sendResults, old(sock.sends))
                && sock.sent == old(sock.sent) && sock.recvs == old(sock.recvs)
      ensures ResultAt(sock.sendResults, old(sock.sends)).None? ==>
                err == ResultAt(sock.recvResults, old(sock.recvs))
                && sock.sent == old(sock.sent) + [Outbound(ConfigCmd(cmd, family, resId), old(nextSeq))]
                && sock.recvs == old(sock.recvs) + 1
    {
      err := Exchange(ConfigCmd(cmd, family, resId));
    }

    /** sendNFConfigMode: the copy mode and range for one group. */
    method SendNFConfigMode(resId: u16, copyLen: u16) returns (err: Option<nat>)
      requires sock.open
      modifies this, sock
      ensures nextSeq == (old(nextSeq) + 1) % 0x1_0000_0000
      ensures sock.open && sock.closed == old(sock.closed) && sock.sends == old(sock.sends) + 1
      ensures ResultAt(sock.sendResults, old(sock.sends)).Some? ==>
                err == ResultAt(sock.sendResults, old(sock.sends))
                && sock.sent == old(sock.sent) && sock.recvs == old(sock.recvs)
      ensures ResultAt(sock.sendResults, old(sock.sends)).None? ==>
                err == ResultAt(sock.recvResults, old(sock.recvs))
                && sock.sent == old(sock.sent) + [Outbound(ConfigMode(resId, copyLen), old(nextSeq))]
                && sock.recvs == old(sock.recvs) + 1
    {
      err := Exchange(ConfigMode(resId, copyLen));
    }
  }

  // ---- the handshake as a plan of requests ----

  /** For each group in the caller's order: bind it, then set its copy mode. */
  function GroupSteps(groups: seq<u16>, copyRange: u16): (s: seq<Request>)
    ensures |s| == 2 * |groups|
  {
    if groups == [] then []
    else [ConfigCmd(NFULNL_CFG_CMD_BIND, AF_INET, groups[0]), ConfigMode(groups[0], copyRange)]
         + GroupSteps(groups[1..], copyRange)
  }

  /** The requests New sends: unbind and bind the protocol family, then the group steps. */
  function Plan(conf: Config): (p: seq<Request>)
    ensures |p| == 2 + 2 * |conf.groups|
  {
    [ConfigCmd(NFULNL_CFG_CMD_PF_UNBIND, AF_INET, 0), ConfigCmd(NFULNL_CFG_CMD_PF_BIND, AF_INET, 0)]
    + GroupSteps(conf.groups, conf.copyRange)
  }

  /** Requests stamped with consecutive sequence numbers from start, each taken as a uint32. */
  function Stamp(reqs: seq<Request>, start: nat): (s: seq<Outbound>)
    ensures |s| == |reqs|
    decreases |reqs|
  {
    if reqs == [] then [] else [Outbound(reqs[0], start % 0x1_0000_0000)] + Stamp(reqs[1..], start + 1)
  }

  lemma {:induction false} GroupStepsShape(groups: seq<u16>, copyRange: u16)
    ensures |GroupSteps(groups, copyRange)| == 2 * |groups|
    ensures forall i :: 0 <= i < |groups| ==>
              GroupSteps(groups, copyRange)[2 * i] == ConfigCmd(NFULNL_CFG_CMD_BIND, AF_INET, groups[i])
              && GroupSteps(groups, copyRange)[2 * i + 1] == ConfigMode(groups[i], copyRange)
    decreases |groups|
  {
    if groups != [] {
      GroupStepsShape(groups[1..], copyRange);
      var steps := GroupSteps(groups, copyRange);
      forall i | 1 <= i < |groups|
        ensures steps[2 * i] == ConfigCmd(NFULNL_CFG_CMD_BIND, AF_INET, groups[i])
        ensures steps[2 * i + 1] == ConfigMode(groups[i], copyRange)
      {
        assert groups[1..][i - 1] == groups[i];
      }
    }
  }

  /**
   * The handshake has 2 + 2 * |groups| requests: protocol-family unbind,
   * protocol-family bind, then for each group in order its bind and its
   * copy mode.
   */
  lemma PlanShape(conf: Config)
    ensures |Plan(conf)| == 2 + 2 * |conf.groups|
    ensures Plan(conf)[0] == ConfigCmd(NFULNL_CFG_CMD_PF_UNBIND, AF_INET, 0)
    ensures Plan(conf)[1] == ConfigCmd(NFULNL_CFG_CMD_PF_BIND, AF_INET, 0)
    ensures forall i :: 0 <= i < |conf.groups| ==>
              Plan(conf)[2 + 2 * i] == ConfigCmd(NFULNL_CFG_CMD_BIND, AF_INET, conf.groups[i])
              && Plan(conf)[3 + 2 * i] == ConfigMode(conf.groups[i], conf.copyRange)
  {
    GroupStepsShape(conf.groups, conf.copyRange);
  }

  /** After the two protocol-family commands, every request of the handshake addresses a configured group. */
  lemma PlanAddressesGroups(conf: Config)
    ensures forall i :: 2 <= i < |Plan(conf)| ==> Plan(conf)[i].resId in conf.groups
  {
    PlanShape(conf);
    forall i | 2 <= i < |Plan(conf)|
      ensures Plan(conf)[i].resId in conf.groups
    {
      var g := (i - 2) / 2;
      assert i == 2 + 2 * g || i == 3 + 2 * g;
      assert Plan(conf)[i].resId == conf.groups[g];
    }
  }

  /** Stamping one more request appends it with the next sequence number. */
  lemma {:induction false} StampSnoc(reqs: seq<Request>, r: Request, start: nat)
    ensures Stamp(reqs + [r], start) == Stamp(reqs, start) + [Outbound(r, (start + |reqs|) % 0x1_0000_0000)]
    decreases |reqs|
  {
    if reqs == [] {
      assert [] + [r] == [r];
    } else {
      assert (reqs + [r])[1..] == reqs[1..] + [r];
      StampSnoc(reqs[1..], r, start + 1);
      AppendAssoc([Outbound(reqs[0], start % 0x1_0000_0000)], Stamp(reqs[1..], start + 1),
                  [Outbound(r, (start + |reqs|) % 0x1_0000_0000)]);
    }
  }

  /** The i-th stamped request is the i-th request with sequence number start + i, modulo 2^32. */
  lemma {:induction false} StampNumbers(reqs: seq<Request>, start: nat)
    ensures forall i :: 0 <= i < |reqs| ==>
              Stamp(reqs, start)[i] == Outbound(reqs[i], (start + i) % 0x1_0000_0000)
    decreases |reqs|
  {
    if reqs != [] {
      StampNumbers(reqs[1..], start + 1);
      forall i | 1 <= i < |reqs|
        ensures Stamp(reqs, start)[i] == Outbound(reqs[i], (start + i) % 0x1_0000_0000)
      {
        assert Stamp(reqs, start)[i] == Stamp(reqs[1..], start + 1)[i - 1];
        assert reqs[1..][i - 1] == reqs[i];
      }
    }
  }

  /** A valid configuration's handshake uses sequence numbers 0, 1, ..., 2 + 2 * |groups| - 1 in order. */
  lemma HandshakeNumbers(conf: Config)
    requires Validate(conf).None?
    ensures |Stamp(Plan(conf), 0)| == 2 + 2 * |conf.groups|
    ensures forall i :: 0 <= i < |Plan(conf)| ==> Stamp(Plan(conf), 0)[i].seqNo == i
  {
    var p := Plan(conf);
    StampNumbers(p, 0);
    forall i | 0 <= i < |p|
      ensures Stamp(p, 0)[i].seqNo == i
    {
      assert Stamp(p, 0)[i] == Outbound(p[i], i % 0x1_0000_0000);
    }
  }

  // ---- which step fails first ----

  /** The errno of step k (a send and its reply), if either call fails. */
  function StepResult(sendResults: seq<Option<nat>>, recvResults: seq<Option<nat>>, k: nat): Option<nat>
  {
    if ResultAt(sendResults, k).Some? then ResultAt(sendResults, k) else ResultAt(recvResults, k)
  }

  /** The first failing step in from..n-1, or n when they all succeed. */
  function FirstFailure(sendResults: seq<Option<nat>>, recvResults: seq<Option<nat>>, from: nat, n: nat): (k: nat)
    ensures from <= n ==> from <= k <= n
    ensures k < n ==> StepResult(sendResults, recvResults, k).Some?
    ensures forall t :: from <= t < k && t < n ==> StepResult(sendResults, recvResults, t).None?
    decreases n - from
  {
    if from >= n then n
    else if StepResult(sendResults, recvResults, from).Some? then from
    else FirstFailure(sendResults, recvResults, from + 1, n)
  }

  /** FirstFailure finds the step that fails while every step before it succeeded. */
  lemma {:induction false} FirstFailureIs(sendResults: seq<Option<nat>>, recvResults: seq<Option<nat>>, from: nat, n: nat, k: nat)
    requires from <= k <= n
    requires forall t :: from <= t < k ==> StepResult(sendResults, recvResults, t).None?
    requires k < n ==> StepResult(sendResults, recvResults, k).Some?
    ensures FirstFailure(sendResults, recvResults, from, n) == k
    decreases k - from
  {
    if from < k {
      FirstFailureIs(sendResults, recvResults, from + 1, n, k);
    }
  }

  /** How many requests were on the wire when step k failed: its own one only if its send succeeded. */
  function SentBefore(sendResults: seq<Option<nat>>, k: nat): nat
  {
    if ResultAt(sendResults, k).None? then k + 1 else k
  }

  /** The socket after steps 0..j-1 of the plan all succeeded. */
  ghost predicate Progress(n: NFLog, plan: seq<Request>, j: nat)
    reads n, n.sock
  {
    && j <= |plan| < 0x1_0000_0000
    && n.sock.open && !n.sock.closed
    && n.nextSeq == j && n.sock.sends == j && n.sock.recvs == j
    && n.sock.sent == Stamp(plan[..j], 0)
    && forall t :: 0 <= t < j ==> StepResult(n.sock.sendResults, n.sock.recvResults, t).None?
  }

  /** The first failing step of the plan is k: the socket holds what was sent up to and during it. */
  ghost predicate FailedAt(n: NFLog, plan: seq<Request>, k: nat)
    reads n, n.sock
  {
    && k < |plan|
    && FirstFailure(n.sock.sendResults, n.sock.recvResults, 0, |plan|) == k
    && n.sock.sent == Stamp(plan[..SentBefore(n.sock.sendResults, k)], 0)
  }

  /** Step j of the plan, and what it leaves behind: the next Progress, or the first failure. */
  method HandshakeStep(n: NFLog, ghost plan: seq<Request>, j: nat, req: Request) returns (err: Option<nat>)
    requires Progress(n, plan, j) && j < |plan| && plan[j] == req
    modifies n, n.sock
    ensures err.None? ==> Progress(n, plan, j + 1)
    ensures err.Some? ==>
              && n.sock.open && !n.sock.closed && FailedAt(n, plan, j)
              && err == StepResult(n.sock.sendResults, n.sock.recvResults, j)
  {
    assert plan[..j + 1] == plan[..j] + [req];
    StampSnoc(plan[..j], req, 0);
    match req {
      case ConfigCmd(cmd, family, resId) => err := n.SendNFConfigCmd(cmd, family, resId);
      case ConfigMode(resId, copyRange) => err := n.SendNFConfigMode(resId, copyRange);
    }
    if err.Some? {
      FirstFailureIs(n.sock.sendResults, n.sock.recvResults, 0, |plan|, j);
    }
  }

  /**
   * The sends of New: protocol-family unbind and bind, then for each group
   * its bind and its copy mode, stopping at the first error.
   */
  method Handshake(n: NFLog) returns (err: Option<nat>)
    requires Progress(n, Plan(n.conf), 0)
    modifies n, n.sock
    ensures err.None? ==> Progress(n, Plan(n.conf), |Plan(n.conf)|)
    ensures err.Some? ==>
              && n.sock.open && !n.sock.closed
              && exists k :: FailedAt(n, Plan(n.conf), k) && err == StepResult(n.sock.sendResults, n.sock.recvResults, k)
  {
    ghost var plan := Plan(n.conf);
    PlanShape(n.conf);
    err := HandshakeStep(n, plan, 0, ConfigCmd(NFULNL_CFG_CMD_PF_UNBIND, AF_INET, 0));
    if err.Some? {
      return;
    }
    err := HandshakeStep(n, plan, 1, ConfigCmd(NFULNL_CFG_CMD_PF_BIND, AF_INET, 0));
    if err.Some? {
      return;
    }
    for i := 0 to |n.conf.groups|
      invariant Progress(n, plan, 2 + 2 * i) && err.None?
    {
      var g := n.conf.groups[i];
      err := HandshakeStep(n, plan, 2 + 2 * i, ConfigCmd(NFULNL_CFG_CMD_BIND, AF_INET, g));
      if err.Some? {
        return;
      }
      err := HandshakeStep(n, plan, 3 + 2 * i, ConfigMode(g, n.conf.copyRange));
      if err.Some? {
        return;
      }
    }
  }

  /**
   * New: validate, open the socket, then run the handshake. An invalid
   * configuration is reported before any socket exists; a failing socket()
   * is reported as is; the first failing exchange closes the socket and its
   * errno is returned. On success every request of the plan went out, in
   * order, stamped 0, 1, 2, ...
   */
  method New(conf: Config, sock: Socket) returns (n: NFLog?, err: Option<NewError>)
    requires !sock.open && !sock.closed && sock.sent == [] && sock.sends == 0 && sock.recvs == 0
    modifies sock
    ensures Validate(conf).Some? ==>
              n == null && err == Some(Invalid(Validate(conf).value)) && !sock.open && !sock.closed && sock.sent == []
    ensures Validate(conf).None? && sock.openResult.Some? ==>
              n == null && err == Some(Syscall(sock.openResult.value)) && !sock.open && !sock.closed && sock.sent == []
    ensures Validate(conf).None? && sock.openResult.None? ==>
              var k := FirstFailure(sock.sendResults, sock.recvResults, 0, |Plan(conf)|);
              && (k == |Plan(conf)| ==>
                    && n != null && fresh(n) && n.sock == sock && n.conf == conf && err.None?
                    && n.nextSeq == |Plan(conf)| && sock.open
                    && sock.sent == Stamp(Plan(conf), 0))
              && (k < |Plan(conf)| ==>
                    && n == null && err == Some(Syscall(StepResult(sock.sendResults, sock.recvResults, k).value))
                    && !sock.open && sock.closed
                    && sock.sent == Stamp(Plan(conf)[..SentBefore(sock.sendResults, k)], 0))
  {
    var invalid := Validate(conf);
    if invalid.Some? {
      return null, Some(Invalid(invalid.value));
    }
    var openErr := sock.Open();
    if openErr.Some? {
      return null, Some(Syscall(openErr.value));
    }
    n := new NFLog(conf, sock);
    PlanShape(conf);
    assert Plan(conf)[..0] == [];
    var e := Handshake(n);
    if e.Some? {
      ghost var k :| FailedAt(n, Plan(conf), k) && e == StepResult(sock.sendResults, sock.recvResults, k);
      sock.Close();
      return null, Some(Syscall(e.value));
    }
    FirstFailureIs(sock.sendResults, sock.recvResults, 0, |Plan(conf)|, |Plan(conf)|);
    assert Plan(conf)[..|Plan(conf)|] == Plan(conf);
    err := None;
  }
}
