/** One request in flight: the `Pump` of src/ethercat/device.rs:41-65, 130-163 together with
    the transmit buffer every stepper keeps beside it. */
module Link {
  import opened Bytes
  import opened Datagram
  import opened Device
  import opened Ecrt
  import opened Trace

  /** Polls before a reply is given up for lost. */
  const MAX_ATTEMPTS: nat := 2_000
  /** Steps one exchange can take. */
  const EXCHANGE: nat := MAX_ATTEMPTS + 1

  class Link {
    var sent: bool
    var expected: byte
    var attempts: nat
    /** The datagrams built and not yet answered; empty stands for `tx_len == 0`. */
    var tx: seq<Dgram>
    /** Size of the receive buffer. */
    const cap: nat

    constructor (cap: nat)
      ensures Idle() && Valid()
    {
      sent, expected, attempts, tx, this.cap := false, 0, 0, [], cap;
    }

    /** Between steps a built frame has been sent and its reply is awaited. */
    ghost predicate Valid()
      reads this
    {
      && (sent <==> tx != [])
      && (sent ==> expected == tx[0].index && attempts < MAX_ATTEMPTS)
    }

    predicate Idle()
      reads this`tx
    {
      tx == []
    }

    /** The frame in flight, if any, is the one for `reqs`. */
    ghost predicate Carries(reqs: seq<Req>)
      reads this`tx
    {
      tx == [] || exists i :: tx == Number(reqs, i)
    }

    /** A frame in flight is the one the wire is waiting for. */
    ghost predicate Awaits(t: Trace)
      reads this`sent, this`tx
    {
      sent ==> t.awaiting == Some(tx)
    }

    /** Steps before this request is answered or given up. */
    ghost function Budget(): (n: nat)
      reads this
    {
      if tx == [] then MAX_ATTEMPTS + 1 else if attempts <= MAX_ATTEMPTS then MAX_ATTEMPTS - attempts else 0
    }

    /** Send once, then look once per step for the reply under the frame's index. The frame
        goes onto the wire with the first call and never again; each later call uses up one
        poll, and a reply is what that poll found, put on record by the wire. */
    method Pump(dev: Device) returns (r: Outcome<Option<seq<byte>>>)
      requires tx != [] && (sent ==> Valid() && dev.awaiting == Some(tx))
      modifies this, dev
      ensures tx == old(tx)
      ensures !old(sent) ==>
        && dev.polls == old(dev.polls) && dev.log == old(dev.log)
        && if r.Ok?
           then r == Ok(None) && sent && attempts == 0 && expected == tx[0].index
             && dev.sent == old(dev.sent) + [Frame(tx)] && dev.awaiting == Some(tx)
           else r == Err(Transport) && dev.sent == old(dev.sent)
      ensures dev.offered == if old(sent) then old(dev.offered) else old(dev.offered) + [tx]
      ensures old(sent) ==> dev.sent == old(dev.sent) && dev.polls == Rest(old(dev.polls))
      ensures old(sent) ==>
        match r
        case Ok(None) =>
          && sent && expected == old(expected) && attempts == old(attempts) + 1 < MAX_ATTEMPTS
          && dev.log == old(dev.log) && dev.awaiting == Some(tx)
        case Ok(Some(p)) =>
          && !sent && |p| >= 4 && p[3] == old(expected) && p == First(old(dev.polls), cap)
          && dev.log == old(dev.log) + [Exchange(ReqsOf(tx), p)] && dev.awaiting == None
        case Err(e) => e == Timeout && !sent && old(attempts) + 1 == MAX_ATTEMPTS && dev.log == old(dev.log)
    {
      if !sent {
        var frame := Frame(tx);
        var ok := dev.Send(frame, tx);
        if !ok {
          return Err(Transport);
        }
        FrameIndex(tx);
        sent, expected, attempts := true, frame[3], 0;
        return Ok(None);
      }
      var p := dev.Poll(cap);
      if |p| >= 4 && p[3] == expected {
        sent := false;
        return Ok(Some(p));
      }
      attempts := attempts + 1;
      if attempts >= MAX_ATTEMPTS {
        sent := false;
        return Err(Timeout);
      }
      return Ok(None);
    }

    /** The steppers' common step: build the frame if none is in flight, pump it, and clear it
        once answered. */
    method Ask(dev: Device, index: byte, reqs: seq<Req>) returns (r: Outcome<Option<seq<byte>>>, next: byte)
      requires Valid() && reqs != [] && Carries(reqs) && Awaits(Record(dev))
      modifies this, dev
      ensures r.Err? || r == Ok(None) ==> SameEvents(old(Record(dev)), Record(dev)) && dev.log == old(dev.log)
      ensures r.Err? ==> r.error == Transport || r.error == Timeout
      ensures r == Ok(None) ==> Valid() && !Idle() && Carries(reqs) && Awaits(Record(dev)) && Budget() < old(Budget())
      ensures r.Ok? && r.value.Some? ==>
        && Valid() && Idle()
        && dev.log == old(dev.log) + [Exchange(reqs, r.value.value)]
        && Record(dev) == Note(Quiet(old(Record(dev))), Exchange(reqs, r.value.value))
      ensures next == if old(Idle()) then (index + |reqs|) % 0x100 else index
      ensures dev.offered == if old(Idle()) then old(dev.offered) + [Number(reqs, index)] else old(dev.offered)
      ensures old(Idle()) ==>
        && dev.polls == old(dev.polls) && (r.Ok? ==> r == Ok(None))
        && dev.sent == if r.Ok? then old(dev.sent) + [Frame(Number(reqs, index))] else old(dev.sent)
      ensures !old(Idle()) ==>
        && dev.sent == old(dev.sent) && dev.polls == Rest(old(dev.polls))
        && (r.Ok? && r.value.Some? ==> r.value.value == First(old(dev.polls), cap))
    {
      hide Note, Number, Frame, TraceOf;
      next := index;
      ghost var carried := tx;
      if tx == [] {
        tx := Number(reqs, index);
        next := (index + |reqs|) % 0x100;
        sent, attempts := false, 0;
      }
      ghost var i :| tx == Number(reqs, i);
      r := Pump(dev);
      match r
      case Err(_) =>
      case Ok(None) =>
      case Ok(Some(reply)) =>
        tx := [];
        ReqsOfNumber(reqs, i);
        TraceSnoc(old(dev.log), Exchange(reqs, reply));
        NothingAwaited(dev.log);
        NothingAwaited(old(dev.log));
    }
  }

  function Rest(polls: seq<RxFrame>): seq<RxFrame> { if polls == [] then [] else polls[1..] }

  /** What a poll into `cap` bytes yields. */
  function First(polls: seq<RxFrame>, cap: nat): seq<byte> { if polls == [] then [] else Polled(polls[0], cap) }

  /** Only what is on the wire may differ. */
  predicate SameEvents(t: Trace, t': Trace) { t'.events == t.events && t'.pending == t.pending }

  /** The index of the first datagram sits at byte 3 of the frame. */
  lemma FrameIndex(ds: seq<Dgram>)
    requires ds != []
    ensures |Frame(ds)| >= 4 && Frame(ds)[3] == ds[0].index
  {
    var e := EncodeOne(ds[0], |ds| > 1);
    assert e[1] == ds[0].index;
    assert EncodeAll(ds)[..|e|] == e;
  }
}
