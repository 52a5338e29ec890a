/**
 * One turn of the reading loop (readNFMsg in nflog.go): a datagram is
 * split into records, which are handed on in order; a parse error is
 * reported and reading goes on; a read error is reported and ends the
 * loop, except ENOBUFS (the socket buffer overflowed and events were
 * dropped), after which reading goes on. Reports are only made when the
 * configuration asks for them.
 */
module Receive {
  import opened Wrappers
  import opened Bytes
  import opened Errors
  import opened Configuration
  import opened Packet
  import opened Messages

  /** Linux's errno for "no buffer space available". */
  const ENOBUFS: nat := 105

  /** What one recvfrom call gave: a datagram, or an errno with its text. */
  datatype Reception = Datagram(data: seq<u8>) | RecvFailed(errno: nat, text: string)

  /** What the loop hands on: a record on the message channel, or an error on the error channel. */
  datatype Delivery = Record(m: Msg) | Report(e: NflogError)

  /** The deliveries of one turn, and whether the loop reads again. */
  datatype Turn = Turn(out: seq<Delivery>, keepReading: bool)

  function AsRecords(ms: seq<Msg>): (ds: seq<Delivery>)
    ensures |ds| == |ms| && forall i :: 0 <= i < |ms| ==> ds[i] == Record(ms[i])
  {
    seq(|ms|, i requires 0 <= i < |ms| => Record(ms[i]))
  }

  /** A report, only when returnErrors is set. */
  function ReportIf(returnErrors: bool, e: NflogError): (ds: seq<Delivery>)
    ensures ds == [] <==> !returnErrors
  {
    if returnErrors then [Report(e)] else []
  }

  function ReceiveStep(r: Reception, returnErrors: bool): (t: Turn)
    // a datagram never ends the loop; a read error ends it unless it is ENOBUFS
    ensures t.keepReading <==> r.Datagram? || r.errno == ENOBUFS
    // a read error is reported as a ReaderError carrying the error's text, and nothing else is handed on
    ensures r.RecvFailed? ==> t.out == ReportIf(returnErrors, ReaderError(r.text))
    // a datagram hands on its records in buffer order, then the parse error if there is one
    ensures r.Datagram? ==>
              var p := Split(r.data);
              && |p.records| <= |t.out|
              && t.out[..|p.records|] == AsRecords(p.records)
              && (p.err.None? ==> |t.out| == |p.records|)
              && (p.err.Some? ==> t.out[|p.records|..] == ReportIf(returnErrors, ParserError(ParseErrorText(p.err.value))))
  {
    match r
    case RecvFailed(errno, text) => Turn(ReportIf(returnErrors, ReaderError(text)), errno == ENOBUFS)
    case Datagram(data) =>
      var p := Split(data);
      var reports := if p.err.Some? then ReportIf(returnErrors, ParserError(ParseErrorText(p.err.value))) else [];
      Turn(AsRecords(p.records) + reports, true)
  }

  /** With error delivery off, nothing but records is ever handed on. */
  lemma QuietWithoutReturnErrors(r: Reception)
    ensures forall d :: d in ReceiveStep(r, false).out ==> d.Record?
  {
    var t := ReceiveStep(r, false);
    if r.Datagram? {
      var p := Split(r.data);
      assert t.out == t.out[..|p.records|] + t.out[|p.records|..];
    }
  }

  /** With error delivery on, every failed read and every unparsable datagram is reported exactly once. */
  lemma EveryFailureReported(r: Reception)
    ensures r.RecvFailed? ==> |ReceiveStep(r, true).out| == 1
    ensures r.Datagram? && Split(r.data).err.Some? ==>
              |ReceiveStep(r, true).out| == |Split(r.data).records| + 1
  {
  }
}
