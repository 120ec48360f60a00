/** The AL state-change stepper (src/ethercat/fsm_change.rs). */
module FsmChange {
  import opened Bytes
  import opened Datagram
  import opened Device
  import opened Ecrt
  import opened Link
  import opened Trace

  const MAX_STATE_WAITS: nat := 1_000
  /** Steps one state change can take, whatever the slave answers. */
  const CHANGE_STEPS: nat := EXCHANGE * (2 * MAX_STATE_WAITS + 3)

  datatype State = WriteControl | ReadStatus | AckError | ReadStatusCode | Done

  class FsmChange {
    const station: word
    const target: byte
    var state: State
    const link: Link
    var waits: nat
    /** An error has been acknowledged once; the next one is final. */
    var acked: bool
    /** The events on record when the change began. */
    ghost var base: seq<Event>

    ghost function Repr(): set<object> { {this, link} }

    constructor (station: word, target: byte, ghost dev: Device)
      requires target < 16
      ensures Valid() && fresh(Repr()) && Linked(Record(dev)) && Budget() == CHANGE_STEPS
      ensures this.station == station && this.target == target && state == WriteControl && link.Idle()
      ensures base == Record(dev).events
    {
      this.station, this.target, state, waits, acked := station, target, WriteControl, 0, false;
      link := new Link(128);
      base := Record(dev).events;
    }

    function Request(): seq<Req>
      reads this`state
    {
      match state
      case WriteControl => [Req(FPWR, station, AL_CONTROL, [target, 0])]
      case ReadStatus => [Req(FPRD, station, AL_STATUS, [0, 0])]
      case AckError => [Req(FPWR, station, AL_CONTROL, [(target + ACK_ERROR) % 0x100, 0])]
      case _ => [Req(FPRD, station, AL_STATUS_CODE, [0, 0])]
    }

    ghost predicate Valid()
      reads Repr()
    {
      link.Valid() && target < 16 && waits < MAX_STATE_WAITS && (state in {WriteControl, AckError} ==> !acked)
        && link.Carries(Request())
    }

    /** What the change has achieved so far. */
    ghost function Progress(): seq<Event>
      reads this`state
    {
      match state
      case WriteControl => []
      case Done => ChangeEvents(station, target)
      case _ => [Wrote(station, 0x0120, [target, 0])]
    }

    /** The record is what it was at the start, and what the change achieved since; an error
        acknowledged on the way is the one acknowledge the pending change allows. */
    ghost predicate OnRecord(t: Trace)
      reads this
    {
      && t.events == base + Progress()
      && (state != WriteControl && state != Done ==> t.pending == Some(Pending(station, target, acked)))
    }

    ghost predicate Linked(t: Trace)
      reads this, link
    {
      OnRecord(t) && link.Awaits(t)
    }

    /** Exchanges that may still follow the current one. */
    ghost function Following(): nat
      reads this
    {
      var left := if waits < MAX_STATE_WAITS then MAX_STATE_WAITS - waits else 0;
      match state
      case WriteControl => 2 * MAX_STATE_WAITS + 2
      case ReadStatus => left + if acked then 0 else MAX_STATE_WAITS + 1
      case AckError => MAX_STATE_WAITS + 1
      case _ => 0
    }

    ghost function Budget(): nat
      reads Repr()
    {
      link.Budget() + EXCHANGE * Following()
    }

    /** What the slave is sent: the state wanted, in the low bits of the AL control word, with
        bit 4 set to acknowledge an error and clear otherwise. */
    lemma ControlWord()
      requires Valid() && (state == WriteControl || state == AckError)
      ensures |Request()| == 1
      ensures var q := Request()[0];
        && q.cmd == 0x05 && q.adp == station && q.ado == 0x0120 && |q.payload| == 2 && q.payload[1] == 0
        && q.payload[0] % 16 == target && ((q.payload[0] / 16) % 2 == 1 <==> state == AckError)
    {
      assert (target + ACK_ERROR) % 0x100 == target + ACK_ERROR;
    }

    /** Count from here: the change has not been asked for yet. */
    ghost method Rebase(t: Trace)
      requires Valid() && state == WriteControl
      modifies this`base
      ensures Valid() && OnRecord(t) && base == t.events && Budget() == old(Budget())
    {
      base := t.events;
    }

    /** One step. However the slave answers, the budget shrinks; the target counts as reached
        only once the slave has shown it. A failed step adds nothing to the record, unless two
        slaves took the write. */
    method Step(dev: Device, index: byte) returns (r: Outcome<bool>, next: byte)
      requires Valid() && Linked(Record(dev))
      modifies Repr(), dev
      ensures r.Ok? ==> Valid() && Linked(Record(dev)) && (r.value <==> state == Done)
      ensures r.Ok? && !r.value ==> Budget() < old(Budget())
      ensures r.Err? ==> Stopped(old(Record(dev)), Record(dev))
      ensures r.Err? && r.error.StateChange? && r.error.code != 0 ==> CodeRead(dev.log, station, r.error.code)
      ensures base == old(base)
      ensures dev.offered
        == old(dev.offered) + if old(state != Done && link.Idle()) then [Number(old(Request()), index)] else []
    {
      hide Note, Record, Number, ChangeEvents;
      next := index;
      if state == Done {
        return Ok(true), next;
      }
      var a;
      a, next := link.Ask(dev, index, Request());
      match a
      case Err(e) => return Err(e), next;
      case Ok(None) => return Ok(false), next;
      case Ok(Some(bytes)) =>
        ghost var asked := Request();
        r := Take(bytes, Quiet(old(Record(dev))), Record(dev));
        assert dev.log[|dev.log| - 1] == Exchange(asked, bytes);
    }

    /** Act on the reply to the current request. */
    method Take(bytes: seq<byte>, ghost t: Trace, ghost t': Trace) returns (r: Outcome<bool>)
      requires state != Done && link.Idle() && Valid() && OnRecord(t) && t' == Note(t, Exchange(Request(), bytes))
      modifies this`state, this`waits, this`acked
      ensures r.Ok? ==> Valid() && OnRecord(t') && (r.value <==> state == Done)
      ensures r.Ok? && !r.value ==> Following() < old(Following())
      ensures r.Err? ==> Stopped(t, t')
      ensures r.Err? && r.error.StateChange? && r.error.code != 0 ==>
        && old(Request()) == [Req(0x04, station, 0x0134, [0, 0])] && Parse(bytes).Some?
        && Tells(Parse(bytes).value.data, r.error.code)
    {
      hide Note, Stopped, ChangeEvents;
      var reply := Parse(bytes);
      if reply.None? {
        Refused(t, bytes);
        return Err(FrameTooShort);
      }
      match state
      case WriteControl =>
        if reply.value.wkc != 1 {
          Refused(t, bytes);
          return Err(WorkingCounter);
        }
        RequestNoted(t, station, target, bytes);
        state, waits := ReadStatus, 0;
        return Ok(false);
      case ReadStatus =>
        r := TakeStatus(bytes, t, t');
        StoppedBySame(t, t');
      case AckError =>
        if reply.value.wkc != 1 {
          Refused(t, bytes);
          return Err(WorkingCounter);
        }
        AckNoted(t, station, target, bytes);
        acked, state, waits := true, ReadStatus, 0;
        return Ok(false);
      case ReadStatusCode =>
        Refused(t, bytes);
        var d := reply.value.data;
        return Err(StateChange(if |d| >= 2 then FromLe16(d[0], d[1]) else 0));
    }

    /** What a step that fails leaves on record. */
    lemma Refused(t: Trace, bytes: seq<byte>)
      requires Parse(bytes).None? || state == ReadStatusCode
        || (state in {WriteControl, AckError} && Parse(bytes).value.wkc != 1)
      ensures Stopped(t, Note(t, Exchange(Request(), bytes)))
    {
      if state in {WriteControl, AckError} {
        WriteRefused(t, Request()[0], bytes);
        assert Request() == [Request()[0]];
      }
    }

    /** The slave's state: the target, an error to acknowledge once, or another wait. */
    method TakeStatus(bytes: seq<byte>, ghost t: Trace, ghost t': Trace) returns (r: Outcome<bool>)
      requires state == ReadStatus && link.Idle() && Valid() && Parse(bytes).Some?
      requires OnRecord(t) && t' == Note(t, Exchange(Request(), bytes))
      modifies this`state, this`waits, this`acked
      ensures r.Ok? ==> Valid() && OnRecord(t') && (r.value <==> state == Done)
      ensures r.Ok? && !r.value ==> Following() < old(Following())
      ensures r.Err? ==> t'.events == t.events && (r.error.StateChange? ==> r.error.code == 0)
    {
      var reply := Parse(bytes);
      if reply.value.wkc != 1 {
        return Err(WorkingCounter);
      }
      var status := FirstByte(reply.value.data);
      if AlError(status) {
        state := if acked then ReadStatusCode else AckError;
        return Ok(false);
      }
      if AlState(status) == target {
        state := Done;
        return Ok(true);
      }
      waits := waits + 1;
      if waits >= MAX_STATE_WAITS {
        return Err(StateChange(0));
      }
      return Ok(false);
    }
  }

  predicate Tells(data: seq<byte>, code: word) { |data| >= 2 && FromLe16(data[0], data[1]) == code }

  /** `code` is what the slave just gave as its AL status code. */
  predicate CodeRead(log: seq<Exchange>, station: word, code: word) {
    log != [] && var x := log[|log| - 1];
      x.reqs == [Req(0x04, station, 0x0134, [0, 0])] && Parse(x.reply).Some? && Tells(Parse(x.reply).value.data, code)
  }

  /** An accepted state request is put on record. */
  lemma RequestNoted(t: Trace, station: word, target: byte, bytes: seq<byte>)
    requires Parse(bytes).Some? && Parse(bytes).value.wkc == 1 && target < 16
    ensures Note(t, Exchange([Req(FPWR, station, AL_CONTROL, [target, 0])], bytes))
      == t.(events := t.events + [Wrote(station, AL_CONTROL, [target, 0])],
        pending := Some(Pending(station, target, false)))
  {
  }

  /** An accepted acknowledge is not: the change it belongs to is already pending. */
  lemma AckNoted(t: Trace, station: word, target: byte, bytes: seq<byte>)
    requires Parse(bytes).Some? && Parse(bytes).value.wkc == 1 && target < 16
      && t.pending == Some(Pending(station, target, false))
    ensures Note(t, Exchange([Req(FPWR, station, AL_CONTROL, [(target + ACK_ERROR) % 0x100, 0])], bytes))
      == t.(pending := Some(Pending(station, target, true)))
  {
    assert (target + ACK_ERROR) % 0x100 == target + ACK_ERROR;
  }

  /** A completed change: the request, then the slave showing the state. */
  function ChangeEvents(station: word, target: byte): seq<Event> {
    [Wrote(station, 0x0120, [target, 0]), Reached(station, target)]
  }
}
