/** The transport seam (src/ethercat/device.rs). The network is an oracle: what each coming
    send and poll will do is scripted in advance, and no caller can see the script, so every
    behaviour of the wire is some value of it. */
module Device {
  import opened Bytes
  import opened Datagram

  const ETH_HEADER: nat := 14
  const MTU: nat := 1536

  /** What one poll of the receive ring finds: nothing, a frame that is not EtherCAT (consumed
      and ignored), or an EtherCAT payload. */
  datatype RxFrame = Silence | Foreign | EtherCat(payload: seq<byte>)

  /** What `poll` copies into a buffer of `cap` bytes; empty stands for `None`. */
  function Polled(f: RxFrame, cap: nat): seq<byte> {
    match f
    case EtherCat(p) => if |p| <= cap then p else p[..cap]
    case _ => []
  }

  /** What a datagram asks for; its index byte is only a tag. */
  datatype Req = Req(cmd: byte, adp: word, ado: word, payload: seq<byte>)

  /** A request frame answered: the reply arrived under the frame's own index. */
  datatype Exchange = Exchange(reqs: seq<Req>, reply: seq<byte>)

  /** The datagrams for `reqs`, tagged from `index` on. */
  function Number(reqs: seq<Req>, index: byte): (ds: seq<Dgram>)
    ensures |ds| == |reqs|
    ensures forall k :: 0 <= k < |reqs| ==>
      ds[k] == Dgram(reqs[k].cmd, ds[k].index, reqs[k].adp, reqs[k].ado, reqs[k].payload, 0)
    ensures ds != [] ==> ds[0].index == index
  {
    if reqs == [] then []
    else [Dgram(reqs[0].cmd, index, reqs[0].adp, reqs[0].ado, reqs[0].payload, 0)] + Number(reqs[1..],
      (index + 1) % 0x100)
  }

  /** What a frame on the wire asks for. */
  function ReqsOf(ds: seq<Dgram>): (reqs: seq<Req>)
    ensures |reqs| == |ds|
  {
    seq(|ds|, k requires 0 <= k < |ds| => Req(ds[k].cmd, ds[k].adp, ds[k].ado, ds[k].payload))
  }

  lemma ReqsOfNumber(reqs: seq<Req>, index: byte)
    ensures ReqsOf(Number(reqs, index)) == reqs
  {
  }

  /** A received payload carries the index of the frame last sent. */
  predicate Answers(awaiting: Option<seq<Dgram>>, payload: seq<byte>) {
    awaiting.Some? && awaiting.value != [] && |payload| >= 4 && payload[3] == awaiting.value[0].index
  }

  class Device {
    /** Whether the transmit ring takes each coming frame; no entry means no. */
    var sends: seq<bool>
    /** What each coming poll finds; no entry means nothing. */
    var polls: seq<RxFrame>
    /** The frames put on the wire. */
    ghost var sent: seq<seq<byte>>
    /** The frames offered to the transmit ring, taken or not. */
    ghost var offered: seq<seq<Dgram>>
    /** The frame last sent, until a payload with its index is received. */
    ghost var awaiting: Option<seq<Dgram>>
    /** The frames answered so far, in order, each with the payload received for it: the wire's
        own record, which only sending and receiving add to. */
    ghost var log: seq<Exchange>

    constructor (sends: seq<bool>, polls: seq<RxFrame>)
      ensures this.sends == sends && this.polls == polls && sent == [] && offered == [] && awaiting == None && log == []
    {
      this.sends, this.polls, sent, offered, awaiting, log := sends, polls, [], [], None, [];
    }

    predicate Accepting(len: nat)
      reads this`sends
    {
      ETH_HEADER + len <= MTU && sends != [] && sends[0]
    }

    method Send(frame: seq<byte>, ghost ds: seq<Dgram>) returns (ok: bool)
      requires frame == Frame(ds)
      modifies this`sends, this`sent, this`offered, this`awaiting
      ensures ok == old(Accepting(|frame|))
      ensures sent == if ok then old(sent) + [frame] else old(sent)
      ensures awaiting == (if ok then Some(ds) else old(awaiting)) && offered == old(offered) + [ds]
    {
      offered := offered + [ds];
      if ETH_HEADER + |frame| > MTU || sends == [] {
        return false;
      }
      ok := sends[0];
      sends := sends[1..];
      if ok {
        sent, awaiting := sent + [frame], Some(ds);
      }
    }

    /** The payload of the polled frame, cut to `cap` bytes; empty if there is none. */
    method Poll(cap: nat) returns (payload: seq<byte>)
      modifies this`polls, this`awaiting, this`log
      ensures payload == if old(polls) == [] then [] else Polled(old(polls)[0], cap)
      ensures polls == if old(polls) == [] then [] else old(polls)[1..]
      ensures if old(Answers(awaiting, payload))
        then awaiting == None && log == old(log) + [Exchange(ReqsOf(old(awaiting).value), payload)]
        else awaiting == old(awaiting) && log == old(log)
    {
      if polls == [] {
        return [];
      }
      payload := Polled(polls[0], cap);
      polls := polls[1..];
      if Answers(awaiting, payload) {
        log, awaiting := log + [Exchange(ReqsOf(awaiting.value), payload)], None;
      }
    }
  }
}
