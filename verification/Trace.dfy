/** What an exchange means for the slaves: the events a run of exchanges adds up to. A register
    write counts once a reply says exactly one slave took it. */
module Trace {
  import opened Bytes
  import opened Datagram
  import opened Device
  import opened Ecrt
  import Coe
  import Clocks

  datatype Event =
    /** One slave took a configured-address write. */
    | Wrote(station: word, ado: word, data: seq<byte>)
    /** More than one slave took it. */
    | Clashed(station: word, ado: word, data: seq<byte>)
    /** At least one slave took a broadcast write. */
    | Broadcast(ado: word, data: seq<byte>)
    /** At least one slave took a write by any other command. */
    | Other(cmd: byte, adp: word, ado: word, data: seq<byte>)
    /** A frame of several datagrams that were not all reads came back. */
    | Mixed(reqs: seq<Req>)
    /** The slave showed the AL state last asked of it, without an error. */
    | Reached(station: word, state: byte)
    /** The slave's outgoing mailbox was seen full. */
    | Full(station: word)
    /** A non-abort CoE response was taken from the slave's mailbox. */
    | Answered(station: word, ado: word)
    /** Port receive times of reference and follower, from one frame. */
    | PortTimes(refStation: word, station: word, refPorts: seq<dword>, folPorts: seq<dword>)
    /** The two clocks and the follower's offset, from one frame. */
    | ClockTimes(refStation: word, station: word, sample: Clocks.Sample)
    /** A system-time read on the reference path, and whether the slave answered it. */
    | TimeRead(station: word, now: qword, own: bool)

  /** The AL state last requested and not yet seen, and whether an error that came up on the
      way has been acknowledged. */
  datatype Pending = Pending(station: word, state: byte, acked: bool)

  /** Events so far, the state change under way, and the frame on the wire. */
  datatype Trace = Trace(events: seq<Event>, pending: Option<Pending>, awaiting: Option<seq<Dgram>>)

  /** The first acknowledge of an error during a state change: it goes to the slave and names
      the state of the request. */
  predicate IsAck(t: Trace, q: Req) {
    && q.ado == 0x0120 && t.pending.Some? && t.pending.value.state < 16 && !t.pending.value.acked
    && q.adp == t.pending.value.station && q.payload == [t.pending.value.state + ACK_ERROR, 0]
  }

  /** A configured-address write, taken by one slave. Of everything taken, only an acknowledge
      is no event, and only the first of each state change. */
  function NoteWrite(t: Trace, q: Req): Trace {
    if IsAck(t, q) then t.(pending := Some(t.pending.value.(acked := true)))
    else
      t.(events := t.events + [Wrote(q.adp, q.ado, q.payload)],
         pending := if q.ado == 0x0120 && |q.payload| == 2 then Some(Pending(q.adp, q.payload[0], false))
           else t.pending)
  }

  function NoteRead(t: Trace, q: Req, r: Reply): Trace {
    if q.ado == 0x0130 && |q.payload| == 2 then
      var s := FirstByte(r.data);
      if r.wkc == 1 && !AlError(s) && t.pending.Some? && t.pending.value.station == q.adp
        && t.pending.value.state == AlState(s)
      then t.(events := t.events + [Reached(q.adp, AlState(s))], pending := None)
      else t
    else if q.ado == 0x0910 && |q.payload| == 8 then
      t.(events := t.events + [TimeRead(q.adp, Clocks.NowOf(r.data), Clocks.OwnTime(r))])
    else if q.ado == 0x080D && |q.payload| == 1 then
      if r.wkc == 1 && (FirstByte(r.data) / 8) % 2 == 1 then t.(events := t.events + [Full(q.adp)]) else t
    else if |q.payload| >= 16 && r.wkc == 1 && Coe.ParseSdoResponse(Coe.Download, r.data).Ok? then
      t.(events := t.events + [Answered(q.adp, q.ado)])
    else t
  }

  /** NOP, APRD, FPRD, BRD and LRD. */
  predicate ReadsOnly(cmd: byte) { cmd in {0x00, 0x01, 0x04, 0x07, 0x0A} }

  function NoteOne(t: Trace, q: Req, r: Reply): Trace {
    if r.wkc == 0 then if q.cmd == 0x04 then NoteRead(t, q, r) else t
    else if q.cmd == 0x05 then
      if r.wkc == 1 then NoteWrite(t, q) else t.(events := t.events + [Clashed(q.adp, q.ado, q.payload)])
    else if q.cmd == 0x08 then t.(events := t.events + [Broadcast(q.ado, q.payload)])
    else if q.cmd == 0x04 then NoteRead(t, q, r)
    else if ReadsOnly(q.cmd) then t
    else t.(events := t.events + [Other(q.cmd, q.adp, q.ado, q.payload)])
  }

  /** Both slaves' port times, latched in the sixteen bytes from 0x0900 on. */
  predicate PortReads(qs: seq<Req>) {
    |qs| == 2 && forall q <- qs :: q.cmd == 0x04 && q.ado == 0x0900 && |q.payload| == 16
  }

  /** Both slaves' system times at 0x0910, and the second one's offset at 0x0920. */
  predicate ClockReads(qs: seq<Req>) {
    && |qs| == 3 && (forall q <- qs :: q.cmd == 0x04 && |q.payload| == 8)
    && qs[0].ado == 0x0910 && qs[1].ado == 0x0910 && qs[2].ado == 0x0920 && qs[2].adp == qs[1].adp
  }

  function Note(t: Trace, x: Exchange): Trace {
    if |x.reqs| == 1 then
      match Parse(x.reply)
      case None => t
      case Some(r) => NoteOne(t, x.reqs[0], r)
    else if exists q :: q in x.reqs && !ReadsOnly(q.cmd) then t.(events := t.events + [Mixed(x.reqs)])
    else if PortReads(x.reqs) then
      match Clocks.ParsePortReads(x.reply)
      case Err(_) => t
      case Ok((p, q)) => t.(events := t.events + [PortTimes(x.reqs[0].adp, x.reqs[1].adp, p, q)])
    else if ClockReads(x.reqs) then
      match Clocks.ParseClockReads(x.reply)
      case Err(_) => t
      case Ok(s) => t.(events := t.events + [ClockTimes(x.reqs[0].adp, x.reqs[1].adp, s)])
    else t
  }

  function TraceOf(log: seq<Exchange>): Trace {
    if log == [] then Trace([], None, None) else Note(TraceOf(log[..|log| - 1]), log[|log| - 1])
  }

  /** What the wire's record comes to, and what it is waiting for. */
  ghost function Record(dev: Device): Trace
    reads dev`log, dev`awaiting
  {
    TraceOf(dev.log).(awaiting := dev.awaiting)
  }

  /** The record with nothing on the wire. */
  function Quiet(t: Trace): Trace { t.(awaiting := None) }

  /** Nothing new; or, where the write last asked for was taken by more than one slave, that. */
  ghost predicate Stopped(t: Trace, t': Trace) {
    t'.events == t.events || exists s, ado, d :: t'.events == t.events + [Clashed(s, ado, d)]
  }

  lemma StoppedSettled(t: Trace, t': Trace)
    ensures Stopped(Quiet(t), t') <==> Stopped(t, t')
  {
  }

  lemma StoppedBySame(t: Trace, t': Trace)
    ensures t'.events == t.events ==> Stopped(t, t')
  {
  }

  /** An acknowledged write that is not an AL request adds just itself to the record. */
  lemma WriteNoted(t: Trace, q: Req, bytes: seq<byte>)
    requires Parse(bytes).Some? && Parse(bytes).value.wkc == 1 && q.cmd == FPWR
      && (q.ado != 0x0120 || |q.payload| != 2)
    ensures Note(t, Exchange([q], bytes)) == t.(events := t.events + [Wrote(q.adp, q.ado, q.payload)])
  {
  }

  /** Of the addressed writes one slave takes, the record passes over an acknowledge of the
      pending change and nothing else, and over one of each change only. */
  lemma OnlyAckSilent(t: Trace, q: Req, bytes: seq<byte>)
    requires Parse(bytes).Some? && Parse(bytes).value.wkc == 1 && q.cmd == FPWR
    ensures var t' := Note(t, Exchange([q], bytes));
      && (t'.events == t.events <==> IsAck(t, q))
      && (IsAck(t, q) ==> t'.pending == Some(t.pending.value.(acked := true)) && forall q' :: !IsAck(t', q'))
  {
  }

  /** A write that was not taken by exactly one slave stops a stepper. */
  lemma WriteRefused(t: Trace, q: Req, bytes: seq<byte>)
    requires q.cmd == FPWR && (Parse(bytes).Some? ==> Parse(bytes).value.wkc != 1)
    ensures Stopped(t, Note(t, Exchange([q], bytes)))
  {
  }

  lemma TraceSnoc(log: seq<Exchange>, x: Exchange)
    ensures TraceOf(log + [x]) == Note(TraceOf(log), x)
  {
    assert (log + [x])[..|log|] == log;
  }

  /** What is on the wire does not bear on what an exchange means. */
  lemma NoteSettled(t: Trace, x: Exchange, a: Option<seq<Dgram>>)
    ensures Note(t.(awaiting := a), x) == Note(t, x).(awaiting := a)
  {
  }

  lemma {:induction false} NothingAwaited(log: seq<Exchange>)
    ensures TraceOf(log).awaiting == None
  {
    if log == [] {
    } else {
      hide Note;
      NothingAwaited(log[..|log| - 1]);
      NoteSettled(TraceOf(log[..|log| - 1]), log[|log| - 1], None);
    }
  }
}
