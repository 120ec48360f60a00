/** The distributed-clock stepper of one slave (src/ethercat/dc.rs:52-379). */
module FsmDc {
  import opened Bytes
  import opened Config
  import opened Datagram
  import opened Device
  import opened Ecrt
  import opened Link
  import opened Trace
  import opened Clocks

  /** Steps one clock bring-up can take, whatever the slaves answer. */
  const DC_STEPS: nat := EXCHANGE * 8

  datatype DcRef = DcRef(refStation: word, compensate: bool)

  datatype State =
    | CompLatch | CompReadPorts | CompWriteDelay | CompReadTimes | CompWriteOffset
    | LatchTime | ReadTime | WriteCycle | WriteStart | Activate | Done

  /** What the slaves' clocks said: port times, clock times, or the time read on the reference
      path and whether the slave answered that read. */
  datatype Readings = Readings(refPorts: seq<dword>, folPorts: seq<dword>, sample: Sample, now: qword, own: bool) {
    predicate Valid() { |refPorts| == 4 && |folPorts| == 4 }
  }

  /** The time the start is computed from. */
  function Epoch(dcRef: DcRef, rd: Readings): qword { if dcRef.compensate then rd.sample.ref else rd.now }

  /** Static compensation: latch, delay from the port times, offset from the clocks. */
  function CompEvents(station: word, dcRef: DcRef, rd: Readings): (evs: seq<Event>)
    requires rd.Valid()
    ensures |evs| == 5
  {
    [Broadcast(DC_RECV_TIME, Zeros(4)),
     PortTimes(dcRef.refStation, station, rd.refPorts, rd.folPorts),
     Wrote(station, DC_SYS_TIME_DELAY, Le32(PropagationDelay(rd.refPorts, rd.folPorts))),
     ClockTimes(dcRef.refStation, station, rd.sample),
     Wrote(station, DC_SYS_TIME_OFFSET, Le64(NewOffset(rd.sample)))]
  }

  /** The reference's own path: latch, then read its time. */
  function RefEvents(station: word, rd: Readings): (evs: seq<Event>)
    ensures |evs| == 2
  {
    [Wrote(station, DC_RECV_TIME, Zeros(4)), TimeRead(station, rd.now, rd.own)]
  }

  function AlignEvents(station: word, dcRef: DcRef, rd: Readings): seq<Event>
    requires rd.Valid()
  {
    if dcRef.compensate then CompEvents(station, dcRef, rd) else RefEvents(station, rd)
  }

  /** Cycle times, start time, activation. */
  function SyncEvents(station: word, cfg: DcCfg, start: qword): (evs: seq<Event>)
    ensures |evs| == 3
  {
    [Wrote(station, DC_SYNC0_CYCLE, Le32(cfg.sync0Cycle) + Le32(cfg.sync1Cycle)),
     Wrote(station, DC_CYCLE_START, Le64(start)),
     Wrote(station, DC_ACTIVATION, Le16(cfg.assignActivate))]
  }

  /** A whole clock bring-up, given what the clocks said. */
  function DcEvents(station: word, cfg: DcCfg, dcRef: DcRef, rd: Readings): seq<Event>
    requires rd.Valid()
  {
    AlignEvents(station, dcRef, rd) + SyncEvents(station, cfg, CyclicStart(cfg, Epoch(dcRef, rd)))
  }

  /** What the bring-up of a follower writes: the offset, decoded, makes its clock read the
      reference's time at the sampled instant, and the start time, decoded, lies on the next
      cycle boundary of that same time base past the margin, plus the shift, wherever that is
      a 64-bit time. */
  lemma FollowerAligned(station: word, cfg: DcCfg, dcRef: DcRef, rd: Readings, local: qword)
    requires rd.Valid() && dcRef.compensate && rd.sample.fol == SystemTime(local, rd.sample.off)
    ensures var evs := DcEvents(station, cfg, dcRef, rd);
      && |evs| == 8
      && evs[4].Wrote? && evs[4].station == station && evs[4].ado == DC_SYS_TIME_OFFSET && |evs[4].data| == 8
      && SystemTime(local, U64(evs[4].data)) == rd.sample.ref
      && evs[6].Wrote? && evs[6].station == station && evs[6].ado == DC_CYCLE_START && |evs[6].data| == 8
      && var s := U64(evs[6].data);
         if StartFits(cfg, rd.sample.ref) then
           var b := s - cfg.sync0Shift;
           b % Cycle(cfg) == 0 && rd.sample.ref + START_MARGIN < b <= rd.sample.ref + START_MARGIN + Cycle(cfg)
         else s < rd.sample.ref
  {
    var start := CyclicStart(cfg, rd.sample.ref);
    var c, y := CompEvents(station, dcRef, rd), SyncEvents(station, cfg, start);
    var evs := DcEvents(station, cfg, dcRef, rd);
    OffsetAligns(rd.sample, local);
    StartIsNextBoundary(cfg, rd.sample.ref, 0);
    Le64RoundTrip(NewOffset(rd.sample));
    Le64RoundTrip(start);
    hide NewOffset, CyclicStart, Le64, U64, PropagationDelay, SystemTime, Cycle, StartFits;
    assert evs == c + y && evs[4] == c[4] && evs[6] == y[1];
  }

  /** A time read that no slave answered: the source takes it for the time zero. */
  lemma UnansweredTimeTaken(station: word, index: byte)
    ensures var r := Parse(Frame([Dgram(FPRD, index, station, DC_SYS_TIME, Zeros(8), 0)]));
      r.Some? && r.value.wkc == 0 && !OwnTime(r.value) && NowOf(r.value.data) == 0
  {
    BuildReadsBackIff(Dgram(FPRD, index, station, DC_SYS_TIME, Zeros(8), 0));
    NoTimeIsZero();
    hide Frame, Parse;
  }

  class FsmDc {
    const station: word
    const cfg: DcCfg
    const dcRef: DcRef
    var state: State
    const link: Link
    var startTime: qword
    var offset: qword
    var delay: dword
    ghost var rd: Readings
    ghost const base: seq<Event>

    ghost function Repr(): set<object> { {this, link} }

    constructor (station: word, cfg: DcCfg, dcRef: DcRef, ghost dev: Device)
      ensures Valid() && fresh(Repr()) && Linked(Record(dev)) && Budget() <= DC_STEPS
      ensures this.station == station && this.cfg == cfg && this.dcRef == dcRef && state != Done
      ensures base == Record(dev).events
    {
      this.station, this.cfg, this.dcRef := station, cfg, dcRef;
      state := if dcRef.compensate then CompLatch else LatchTime;
      link := new Link(128);
      startTime, offset, delay := 0, 0, 0;
      rd := Readings([0, 0, 0, 0], [0, 0, 0, 0], Sample(0, 0, 0), 0, false);
      base := Record(dev).events;
    }

    function Request(): (reqs: seq<Req>)
      reads this
      ensures reqs != []
    {
      match state
      case CompLatch => [Req(BWR, 0, DC_RECV_TIME, Zeros(4))]
      case CompReadPorts => [Req(FPRD, dcRef.refStation, DC_RECV_TIME, Zeros(16)),
        Req(FPRD, station, DC_RECV_TIME, Zeros(16))]
      case CompWriteDelay => [Req(FPWR, station, DC_SYS_TIME_DELAY, Le32(delay))]
      case CompReadTimes =>
        [Req(FPRD, dcRef.refStation, DC_SYS_TIME, Zeros(8)), Req(FPRD, station, DC_SYS_TIME, Zeros(8)),
         Req(FPRD, station, DC_SYS_TIME_OFFSET, Zeros(8))]
      case CompWriteOffset => [Req(FPWR, station, DC_SYS_TIME_OFFSET, Le64(offset))]
      case LatchTime => [Req(FPWR, station, DC_RECV_TIME, Zeros(4))]
      case ReadTime => [Req(FPRD, station, DC_SYS_TIME, Zeros(8))]
      case WriteCycle => [Req(FPWR, station, DC_SYNC0_CYCLE, Le32(cfg.sync0Cycle) + Le32(cfg.sync1Cycle))]
      case WriteStart => [Req(FPWR, station, DC_CYCLE_START, Le64(startTime))]
      case _ => [Req(FPWR, station, DC_ACTIVATION, Le16(cfg.assignActivate))]
    }

    /** What is stored came from the readings. */
    ghost predicate Stored()
      requires rd.Valid()
      reads this
    {
      && (state == CompWriteDelay ==> delay == PropagationDelay(rd.refPorts, rd.folPorts))
      && (state == CompWriteOffset ==> offset == NewOffset(rd.sample))
      && (state in {CompWriteOffset, WriteCycle, WriteStart, Activate, Done} ==>
        startTime == CyclicStart(cfg, Epoch(dcRef, rd)))
      && (state in {CompLatch, CompReadPorts, CompWriteDelay, CompReadTimes, CompWriteOffset} ==> dcRef.compensate)
      && (state in {LatchTime, ReadTime} ==> !dcRef.compensate)
    }

    ghost predicate Valid()
      reads Repr()
    {
      link.Valid() && rd.Valid() && Stored() && link.Carries(Request())
    }

    ghost function Progress(): seq<Event>
      requires rd.Valid()
      reads this
    {
      var a, y := AlignEvents(station, dcRef, rd), SyncEvents(station, cfg, startTime);
      match state
      case CompLatch => []
      case CompReadPorts => CompEvents(station, dcRef, rd)[..1]
      case CompWriteDelay => CompEvents(station, dcRef, rd)[..2]
      case CompReadTimes => CompEvents(station, dcRef, rd)[..3]
      case CompWriteOffset => CompEvents(station, dcRef, rd)[..4]
      case LatchTime => []
      case ReadTime => RefEvents(station, rd)[..1]
      case WriteCycle => a
      case WriteStart => a + y[..1]
      case Activate => a + y[..2]
      case Done => a + y
    }

    lemma ProgressIsPrefix()
      requires rd.Valid() && Stored()
      ensures Progress() <= DcEvents(station, cfg, dcRef, rd)
    {
      hide CyclicStart, PropagationDelay, NewOffset;
    }

    ghost predicate OnRecord(t: Trace)
      reads this
      requires rd.Valid()
    {
      t.events == base + Progress()
    }

    ghost predicate Linked(t: Trace)
      reads this, link
      requires rd.Valid()
    {
      OnRecord(t) && link.Awaits(t)
    }

    ghost function Following(): nat
      reads this`state
    {
      match state
      case CompLatch => 7
      case CompReadPorts => 6
      case CompWriteDelay => 5
      case CompReadTimes => 4
      case CompWriteOffset => 3
      case LatchTime => 4
      case ReadTime => 3
      case WriteCycle => 2
      case WriteStart => 1
      case _ => 0
    }

    ghost function Budget(): nat
      reads Repr()
    {
      link.Budget() + EXCHANGE * Following()
    }

    lemma UnderWay()
      requires Valid()
      ensures Budget() > 0 && rd.Valid()
    {
      hide Stored, Request;
    }

    /** One step. On success the clock has been set up as `DcEvents` says, with values computed
        from what the clocks said; a failed step adds nothing to the record, unless two slaves
        took the write. */
    method Step(dev: Device, index: byte) returns (r: Outcome<bool>, next: byte)
      requires Valid() && Linked(Record(dev))
      modifies Repr(), dev
      ensures r.Ok? ==> Valid() && Linked(Record(dev)) && (r.value <==> state == Done)
      ensures r.Ok? && !r.value ==> Budget() < old(Budget())
      ensures r.Ok? && r.value ==> Record(dev).events == base + DcEvents(station, cfg, dcRef, rd)
      ensures r.Err? ==> Stopped(old(Record(dev)), Record(dev))
    {
      hide Note, Record, Number, Progress, Stored, Request, DcEvents, Stopped;
      next := index;
      if state == Done {
        Finished(Record(dev));
        return Ok(true), next;
      }
      var a;
      a, next := link.Ask(dev, index, Request());
      match a
      case Err(e) =>
        StoppedBySame(old(Record(dev)), Record(dev));
        return Err(e), next;
      case Ok(None) => return Ok(false), next;
      case Ok(Some(bytes)) =>
        r := Take(bytes, Quiet(old(Record(dev))), Record(dev));
        assert r.Err? ==> Stopped(old(Record(dev)), Record(dev)) by {
          StoppedSettled(old(Record(dev)), Record(dev));
        }
        if r.Ok? && r.value {
          Finished(Record(dev));
        }
    }

    lemma Finished(t: Trace)
      requires Valid() && state == Done
      ensures OnRecord(t) <==> t.events == base + DcEvents(station, cfg, dcRef, rd)
    {
      hide CompEvents, RefEvents, SyncEvents, CyclicStart;
    }

    /** Act on the reply to the current request. */
    method Take(bytes: seq<byte>, ghost t: Trace, ghost t': Trace) returns (r: Outcome<bool>)
      requires state != Done && link.Idle() && Valid() && OnRecord(t) && t' == Note(t, Exchange(Request(), bytes))
      modifies this
      ensures r.Ok? ==> Valid() && OnRecord(t') && (r.value <==> state == Done)
      ensures r.Ok? && !r.value ==> Following() < old(Following())
      ensures r.Err? ==> Stopped(t, t')
    {
      if state == CompLatch {
        r := TakeLatch(bytes, t, t');
      } else if state == CompReadPorts {
        r := TakePorts(bytes, t, t');
      } else if state == CompReadTimes {
        r := TakeClocks(bytes, t, t');
      } else if state == ReadTime {
        r := TakeNow(bytes, t, t');
      } else if state == LatchTime {
        r := TakeLatchWrite(bytes, t, t');
      } else if state == CompWriteDelay || state == CompWriteOffset {
        r := TakeCompWrite(bytes, t, t');
      } else {
        r := TakeSyncWrite(bytes, t, t');
      }
    }

    /** What a write that was not taken by exactly one slave leaves on record. */
    lemma Refused(t: Trace, bytes: seq<byte>)
      requires state in {CompWriteDelay, CompWriteOffset, LatchTime, WriteCycle, WriteStart, Activate}
      requires Parse(bytes).Some? && Parse(bytes).value.wkc != 1
      ensures Stopped(t, Note(t, Exchange(Request(), bytes)))
    {
      hide Stopped, Note, PropagationDelay, NewOffset;
      assert Request() == [Request()[0]];
      WriteRefused(t, Request()[0], bytes);
    }

    method TakeLatch(bytes: seq<byte>, ghost t: Trace, ghost t': Trace) returns (r: Outcome<bool>)
      requires state == CompLatch && link.Idle() && Valid() && OnRecord(t) && t' == Note(t, Exchange(Request(), bytes))
      modifies this
      ensures r.Ok? ==> Valid() && OnRecord(t') && (r.value <==> state == Done)
      ensures r.Ok? && !r.value ==> Following() < old(Following())
      ensures r.Err? ==> Stopped(t, t')
    {
      var reply := Parse(bytes);
      if reply.None? {
        return Err(FrameTooShort);
      }
      if reply.value.wkc == 0 {
        return Err(WorkingCounter);
      }
      state := CompReadPorts;
      return Ok(false);
    }

    method TakePorts(bytes: seq<byte>, ghost t: Trace, ghost t': Trace) returns (r: Outcome<bool>)
      requires state == CompReadPorts && link.Idle() && Valid() && OnRecord(t)
        && t' == Note(t, Exchange(Request(), bytes))
      modifies this
      ensures r.Ok? ==> Valid() && OnRecord(t') && (r.value <==> state == Done)
      ensures r.Ok? && !r.value ==> Following() < old(Following())
      ensures r.Err? ==> Stopped(t, t')
    {
      hide PropagationDelay;
      var ports := ParsePortReads(bytes);
      match ports
      case Err(e) => return Err(e);
      case Ok((p, q)) =>
        delay, state := PropagationDelay(p, q), CompWriteDelay;
        rd := rd.(refPorts := p, folPorts := q);
        return Ok(false);
    }

    method TakeClocks(bytes: seq<byte>, ghost t: Trace, ghost t': Trace) returns (r: Outcome<bool>)
      requires state == CompReadTimes && link.Idle() && Valid() && OnRecord(t)
        && t' == Note(t, Exchange(Request(), bytes))
      modifies this
      ensures r.Ok? ==> Valid() && OnRecord(t') && (r.value <==> state == Done)
      ensures r.Ok? && !r.value ==> Following() < old(Following())
      ensures r.Err? ==> Stopped(t, t')
    {
      hide PropagationDelay, NewOffset, CyclicStart;
      var clocks := ParseClockReads(bytes);
      match clocks
      case Err(e) => return Err(e);
      case Ok(sample) =>
        offset, startTime, state := NewOffset(sample), CyclicStart(cfg, sample.ref), CompWriteOffset;
        rd := rd.(sample := sample);
        return Ok(false);
    }

    /** Whatever reply can be parsed is gone on with. */
    method TakeNow(bytes: seq<byte>, ghost t: Trace, ghost t': Trace) returns (r: Outcome<bool>)
      requires state == ReadTime && link.Idle() && Valid() && OnRecord(t) && t' == Note(t, Exchange(Request(), bytes))
      modifies this
      ensures r.Ok? ==> Valid() && OnRecord(t') && (r.value <==> state == Done)
      ensures r.Ok? && !r.value ==> Following() < old(Following())
      ensures r.Err? ==> Stopped(t, t')
      ensures Parse(bytes).Some? ==>
        && r == Ok(false) && rd.now == NowOf(Parse(bytes).value.data) && rd.own == OwnTime(Parse(bytes).value)
        && startTime == CyclicStart(cfg, rd.now)
    {
      hide CyclicStart;
      var reply := Parse(bytes);
      if reply.None? {
        return Err(FrameTooShort);
      }
      var now := NowOf(reply.value.data);
      startTime, state := CyclicStart(cfg, now), WriteCycle;
      rd := rd.(now := now, own := OwnTime(reply.value));
      return Ok(false);
    }

    method TakeCompWrite(bytes: seq<byte>, ghost t: Trace, ghost t': Trace) returns (r: Outcome<bool>)
      requires state in {CompWriteDelay, CompWriteOffset} && link.Idle() && Valid() && OnRecord(t)
        && t' == Note(t, Exchange(Request(), bytes))
      modifies this
      ensures r.Ok? ==> Valid() && OnRecord(t') && (r.value <==> state == Done)
      ensures r.Ok? && !r.value ==> Following() < old(Following())
      ensures r.Err? ==> Stopped(t, t')
    {
      hide PropagationDelay, NewOffset, CyclicStart, SyncEvents;
      var reply := Parse(bytes);
      if reply.None? {
        return Err(FrameTooShort);
      }
      if reply.value.wkc != 1 {
        Refused(t, bytes);
        return Err(WorkingCounter);
      }
      state := if state == CompWriteDelay then CompReadTimes else WriteCycle;
      return Ok(false);
    }

    method TakeLatchWrite(bytes: seq<byte>, ghost t: Trace, ghost t': Trace) returns (r: Outcome<bool>)
      requires state in {LatchTime} && link.Idle() && Valid() && OnRecord(t)
        && t' == Note(t, Exchange(Request(), bytes))
      modifies this
      ensures r.Ok? ==> Valid() && OnRecord(t') && (r.value <==> state == Done)
      ensures r.Ok? && !r.value ==> Following() < old(Following())
      ensures r.Err? ==> Stopped(t, t')
    {
      hide PropagationDelay, NewOffset, CyclicStart, SyncEvents;
      var reply := Parse(bytes);
      if reply.None? {
        return Err(FrameTooShort);
      }
      if reply.value.wkc != 1 {
        Refused(t, bytes);
        return Err(WorkingCounter);
      }
      state := ReadTime;
      return Ok(false);
    }

    method TakeSyncWrite(bytes: seq<byte>, ghost t: Trace, ghost t': Trace) returns (r: Outcome<bool>)
      requires state in {WriteCycle, WriteStart, Activate} && link.Idle() && Valid() && OnRecord(t)
        && t' == Note(t, Exchange(Request(), bytes))
      modifies this
      ensures r.Ok? ==> Valid() && OnRecord(t') && (r.value <==> state == Done)
      ensures r.Ok? && !r.value ==> Following() < old(Following())
      ensures r.Err? ==> Stopped(t, t')
    {
      hide PropagationDelay, NewOffset, CyclicStart, AlignEvents, CompEvents, RefEvents;
      var reply := Parse(bytes);
      if reply.None? {
        return Err(FrameTooShort);
      }
      if reply.value.wkc != 1 {
        Refused(t, bytes);
        return Err(WorkingCounter);
      }
      state := if state == WriteCycle then WriteStart else if state == WriteStart then Activate else Done;
      return Ok(state == Done);
    }
  }
}
