/** The bring-up stepper (src/ethercat/fsm_slave_config.rs:53-319), one exchange per step, and
    the proof that what it gets acknowledged is the plan, in order, and nothing else. */
module FsmSlaveConfig {
  import opened Bytes
  import opened Config
  import opened Datagram
  import opened Device
  import opened Ecrt
  import opened Link
  import opened Trace
  import opened PdoConfig
  import opened SlaveConfig
  import Clocks
  import FsmChange
  import FsmCoe
  import FsmDc

  class FsmSlaveConfig {
    const job: Job
    var phase: Phase
    var smIdx: nat
    var pdoIdx: nat
    var fmmuIdx: nat
    const link: Link
    var change: FsmChange.FsmChange?
    var queue: FsmCoe.CoeSeq?
    var dc: FsmDc.FsmDc?
    /** What the slaves' clocks have said. */
    ghost var rd: FsmDc.Readings
    ghost const base: seq<Event>

    ghost function Repr(): set<object>
      reads this, queue
    {
      {this, link} + (if change != null then change.Repr() else {})
      + (if queue != null then queue.Repr() else {}) + (if dc != null then dc.Repr() else {})
    }

    constructor (job: Job, ghost dev: Device)
      ensures Valid() && fresh(Repr()) && Linked(Record(dev)) && Budget() == Cost(job, Place(ClearFmmus, 0, 0, 0))
      ensures this.job == job && phase != Phase.Done && base == Record(dev).events
    {
      this.job, phase, smIdx, pdoIdx, fmmuIdx := job, ClearFmmus, 0, 0, 0;
      link := new Link(128);
      change, queue, dc := null, null, null;
      rd := FsmDc.Readings([0, 0, 0, 0], [0, 0, 0, 0], Clocks.Sample(0, 0, 0), 0, false);
      base := Record(dev).events;
    }

    function Here(): Place
      reads this
    {
      Place(phase, smIdx, pdoIdx, fmmuIdx)
    }

    /** The write in flight is the one due; elsewhere the link is idle. */
    ghost predicate LinkOk()
      reads this, link
      requires PlaceOk(job, Here())
    {
      && link.Valid()
      && match Due(job, Here())
         case None => link.Idle()
         case Some((ado, data)) => link.Carries([Req(FPWR, job.station, ado, data)])
    }

    /** A state change under way is the one due, and started from here. */
    ghost predicate ChangeOk()
      reads this, if change != null then change.Repr() else {}
      requires PlaceOk(job, Here()) && rd.Valid()
    {
      change != null ==>
        && ChangeTarget(Here()) == Some(change.target) && change.station == job.station
        && change.link != link && change.Valid() && change.state != FsmChange.Done
          && change.base == base + Before(job, Here(), rd)
    }

    ghost predicate QueueOk()
      reads this, queue, if queue != null then queue.Repr() else {}
      requires PlaceOk(job, Here()) && rd.Valid()
    {
      && (phase == Phase.SdoInit ==> queue != null)
      && (queue != null ==>
        && DueQueue(job, Here()).Some? && queue.ops == PushAll(DueQueue(job, Here()).value) && queue.mbox == job.mbox
        && {this, link} !! queue.Repr() && queue.Valid() && queue.base == base + Before(job, Here(), rd))
    }

    ghost predicate ClockOk()
      reads this, if dc != null then dc.Repr() else {}
      requires PlaceOk(job, Here()) && rd.Valid()
    {
      dc != null ==>
        && phase == DcCycle && job.slave.dc == Some(dc.cfg) && dc.station == job.station && dc.dcRef == job.dcRef
        && {this, link} !! dc.Repr() && dc.Valid() && dc.state != FsmDc.Done
          && dc.base == base + Before(job, Here(), rd)
    }

    ghost predicate Valid()
      reads this, queue, Repr()
    {
      && rd.Valid() && PlaceOk(job, Here())
      && LinkOk() && ChangeOk() && QueueOk() && ClockOk()
    }

    /** The record is what it was at the start, and the plan up to where the stepper stands. */
    ghost predicate Linked(t: Trace)
      reads this, queue, Repr()
      requires Valid()
    {
      if change != null then change.Linked(t)
      else if queue != null then queue.Linked(t)
      else if dc != null then dc.Linked(t)
      else t.events == base + Before(job, Here(), rd) && link.Awaits(t)
    }

    /** Steps left for what is under way. */
    ghost function Current(): nat
      reads this, queue, Repr()
      requires Valid()
    {
      if change != null then change.Budget()
      else if queue != null then queue.Budget() + 1
      else if dc != null then dc.Budget()
      else if Due(job, Here()).Some? then link.Budget()
      else Whole(job, Here())
    }

    ghost function Budget(): nat
      reads this, queue, Repr()
      requires Valid()
    {
      Cost(job, Here()) - Whole(job, Here()) + Current()
    }

    /** Nothing is under way and the link is free. */
    ghost predicate Settled()
      reads this, link
    {
      change == null && queue == null && dc == null && link.Valid() && link.Idle() && rd.Valid()
    }

    /** Stand at `p`, where the record says the stepper is. */
    method Goto(p: Place, ghost t: Trace)
      requires Settled() && PlaceOk(job, p) && p.phase != Phase.SdoInit && t.events == base + Before(job, p, rd)
      modifies this`phase, this`smIdx, this`pdoIdx, this`fmmuIdx
      ensures Valid() && Linked(t) && Here() == p && Budget() <= Cost(job, p)
    {
      hide Before, Cost;
      phase, smIdx, pdoIdx, fmmuIdx := p.phase, p.sm, p.pdo, p.fmmu;
    }

    /** A list is exhausted, or there is no clock: on to what follows. */
    method MoveOn(ghost t: Trace)
      requires Valid() && Linked(t) && Skip(job, Here()).Some?
      modifies this`phase, this`smIdx, this`pdoIdx, this`fmmuIdx
      ensures Valid() && Linked(t) && phase != Phase.Done && Budget() < old(Budget())
    {
      hide Before, Cost;
      SkipIsFree(job, Here(), rd);
      SkipCost(job, Here());
      Goto(Skip(job, Here()).value, t);
    }

    /** Write the register that is due. */
    method Fpwr(dev: Device, index: byte) returns (r: Outcome<bool>, next: byte)
      requires Valid() && Linked(Record(dev)) && Due(job, Here()).Some?
      modifies this`phase, this`smIdx, this`pdoIdx, this`fmmuIdx, link, dev
      ensures r.Ok? ==> Valid() && Linked(Record(dev)) && !r.value && phase != Phase.Done && Budget() < old(Budget())
      ensures r.Err? ==> Stopped(old(Record(dev)), Record(dev))
    {
      hide Stopped, Before, Cost, Record, Note, Due, PushAll, InitRequests, MappingRequests, AssignRequests;
      var p, due := Here(), Due(job, Here()).value;
      DueAlone(job, p);
      WriteIsNext(job, p, rd);
      WriteCost(job, p);
      var a;
      a, next := link.Ask(dev, index, [Req(FPWR, job.station, due.0, due.1)]);
      match a
      case Err(e) =>
        StoppedBySame(old(Record(dev)), Record(dev));
        return Err(e), next;
      case Ok(None) => return Ok(false), next;
      case Ok(Some(bytes)) =>
        ghost var t, q := Quiet(old(Record(dev))), Req(FPWR, job.station, due.0, due.1);
        var reply := Parse(bytes);
        if reply.None? || reply.value.wkc != 1 {
          WriteRefused(t, q, bytes);
          StoppedSettled(old(Record(dev)), Record(dev));
          return Err(if reply.None? then FrameTooShort else WorkingCounter), next;
        }
        WriteNoted(t, q, bytes);
        Goto(AfterWrite(p), Record(dev));
        return Ok(false), next;
    }

    // ---- AL state changes ----

    /** The state change due here, if none is under way. */
    method BeginChange(ghost dev: Device)
      requires Valid() && Linked(Record(dev)) && ChangeTarget(Here()).Some?
      modifies this`change
      ensures Valid() && Linked(Record(dev)) && change != null && Budget() == old(Budget())
      ensures forall o :: o in Repr() && o !in old(Repr()) ==> fresh(o)
    {
      hide Before, Cost, Record;
      ChangeAlone(job, Here());
      if change == null {
        change := new FsmChange.FsmChange(job.station, ChangeTarget(Here()).value, dev);
      }
    }

    lemma OnlyChange()
      requires Valid() && change != null
      ensures ChangeTarget(Here()).Some? && queue == null && dc == null && link.Valid() && link.Idle()
      ensures Due(job, Here()).None? && phase != Phase.Done
    {
      hide Before, Cost;
      ChangeAlone(job, Here());
    }

    /** One step of the state change under way; on success the target has been seen. */
    method StepChange(dev: Device, index: byte) returns (r: Outcome<bool>, next: byte)
      requires Valid() && Linked(Record(dev)) && change != null
      modifies change.Repr(), dev
      ensures r.Ok? && !r.value ==> Valid() && Linked(Record(dev)) && Budget() < old(Budget()) && phase != Phase.Done
      ensures r.Err? ==> Stopped(old(Record(dev)), Record(dev))
      ensures r.Ok? && r.value ==>
        && ChangeTarget(Here()).Some? && PlaceOk(job, AfterChange(Here()))
        && queue == null && dc == null && link.Valid() && link.Idle() && rd.Valid()
        && Record(dev).events == base + Before(job, AfterChange(Here()), rd)
        && Cost(job, AfterChange(Here())) < old(Budget())
    {
      hide Stopped, Before, Cost, Record, FsmChange.ChangeEvents, Due, DueQueue, Skip, Whole, LinkOk, QueueOk, ClockOk;
      OnlyChange();
      ChangeIsNext(job, Here(), rd);
      ChangeCost(job, Here());
      assert change.link.Budget() > 0;
      r, next := change.Step(dev, index);
    }

    method RunChange(dev: Device, index: byte) returns (r: Outcome<bool>, next: byte)
      requires Valid() && Linked(Record(dev)) && change != null
      modifies this`phase, this`smIdx, this`pdoIdx, this`fmmuIdx, this`change, this`queue, change.Repr(), dev
      ensures forall o :: o in Repr() && o !in old(Repr()) ==> fresh(o)
      ensures r.Ok? ==> Valid() && Linked(Record(dev)) && (r.value <==> phase == Phase.Done)
      ensures r.Err? ==> Stopped(old(Record(dev)), Record(dev))
      ensures r.Ok? && !r.value ==> Budget() < old(Budget())
    {
      hide Stopped, Before, Cost, Record, Valid, Linked, Budget;
      r, next := StepChange(dev, index);
      if r.Err? || !r.value {
        return;
      }
      change := null;
      if phase == ToPreop {
        EnterInit(dev);
        return Ok(false), next;
      }
      ChangeAlone(job, Here());
      Goto(AfterChange(Here()), Record(dev));
    }

    /** PRE-OP reached: the SDO init values run as one sequence. */
    method EnterInit(ghost dev: Device)
      requires Settled() && PlaceOk(job, AfterChange(Here())) && phase == ToPreop
      requires Record(dev).events == base + Before(job, AfterChange(Here()), rd)
      modifies this`phase, this`queue
      ensures Valid() && Linked(Record(dev)) && phase == Phase.SdoInit && Budget() <= Cost(job, Here())
      ensures Here() == old(AfterChange(Here())) && forall o :: o in Repr() && o !in old(Repr()) ==> fresh(o)
    {
      hide Stopped, Before, Cost, Record, Valid, Linked, Budget;
      var q := BuildInit(job.mbox, job.slave.sdoInit, dev);
      phase := Phase.SdoInit;
      Adopt(q, Record(dev));
    }

    static lemma NothingYet(q: FsmCoe.CoeSeq)
      requires q.Valid() && q.coe == null && q.cur == 0
      ensures FsmCoe.SeqEvents(q.mbox, q.ops[..0]) == [] && q.Budget() == FsmCoe.SeqSteps(|q.ops|)
    {
    }

    /** Take on the sequence due here. */
    method Adopt(q: FsmCoe.CoeSeq, ghost t: Trace)
      requires Settled() && PlaceOk(job, Here()) && t.events == base + Before(job, Here(), rd)
      requires DueQueue(job, Here()).Some? && {this, link} !! q.Repr()
        && Loaded(q, job.mbox, DueQueue(job, Here()).value) && q.base == t.events
      modifies this`queue
      ensures Valid() && Linked(t) && queue == q && Budget() <= Cost(job, Here())
    {
      hide Before, Cost, Due, DueQueue, ChangeTarget, Skip, Whole, PushAll, Times, FsmCoe.SeqSteps, FsmCoe.SeqEvents;
      QueueAlone(job, Here());
      FsmCoe.SeqStepsBound(|q.ops|);
      assert q.ops[..0] == [];
      NothingYet(q);
      queue := q;
    }

    // ---- CoE sequences ----

    /** The sequence due here, built on first need. */
    method BeginQueue(ghost dev: Device)
      requires Valid() && Linked(Record(dev)) && DueQueue(job, Here()).Some?
      modifies this`queue
      ensures Valid() && Linked(Record(dev)) && queue != null && Budget() <= old(Budget())
      ensures forall o :: o in Repr() && o !in old(Repr()) ==> fresh(o)
    {
      hide Before, Cost, Record, MappingRequests, AssignRequests;
      QueueAlone(job, Here());
      if queue == null {
        var q;
        if phase == PdoMapping {
          q := BuildMapping(job.mbox, job.slave.sms[smIdx].pdos[pdoIdx], dev);
        } else {
          q := BuildAssign(job.mbox, job.slave.sms[smIdx].index, job.slave.sms[smIdx].pdos, dev);
        }
        Adopt(q, Record(dev));
      }
    }

    /** One step of the sequence under way; at its end every write of it has been answered. */
    method StepQueue(dev: Device, index: byte) returns (r: Outcome<bool>, next: byte)
      requires Valid() && Linked(Record(dev)) && queue != null
      modifies queue.Repr(), dev
      ensures queue.coe != null ==> fresh(queue.coe.Repr() - old(Repr()))
      ensures r.Ok? && !r.value ==> Valid() && Linked(Record(dev)) && Budget() < old(Budget()) && phase != Phase.Done
      ensures r.Err? ==> Stopped(old(Record(dev)), Record(dev))
      ensures r.Ok? && r.value ==>
        && DueQueue(job, Here()).Some? && PlaceOk(job, AfterQueue(Here()))
        && change == null && dc == null && link.Valid() && link.Idle() && rd.Valid()
        && Record(dev).events == base + Before(job, AfterQueue(Here()), rd)
        && Cost(job, AfterQueue(Here())) < old(Budget())
    {
      hide Stopped, Before, Cost, Record, DueQueue, Due, ChangeTarget, Skip, FsmCoe.SeqEvents, PushAll, Whole;
      hide FsmCoe.CoeSeq.Valid, FsmCoe.CoeSeq.Linked, FsmCoe.CoeSeq.Budget, FsmCoe.FsmCoe.Repr;
      QueueAlone(job, Here());
      QueueIsNext(job, Here(), rd);
      QueueCost(job, Here());
      QueueDownloads(job, Here());
      r, next := queue.Step(dev, index);
    }

    method RunQueue(dev: Device, index: byte) returns (r: Outcome<bool>, next: byte)
      requires Valid() && Linked(Record(dev)) && queue != null
      modifies this`phase, this`smIdx, this`pdoIdx, this`fmmuIdx, this`queue, queue.Repr(), dev
      ensures forall o :: o in Repr() && o !in old(Repr()) ==> fresh(o)
      ensures r.Ok? ==> Valid() && Linked(Record(dev)) && !r.value && phase != Phase.Done && Budget() < old(Budget())
      ensures r.Err? ==> Stopped(old(Record(dev)), Record(dev))
    {
      hide Stopped, Before, Cost, Record, Valid, Linked, Budget;
      r, next := StepQueue(dev, index);
      if r.Err? || !r.value {
        return;
      }
      queue := null;
      QueueAlone(job, Here());
      Goto(AfterQueue(Here()), Record(dev));
      return Ok(false), next;
    }

    // ---- Clock ----

    method BeginClock(ghost dev: Device)
      requires Valid() && Linked(Record(dev)) && phase == DcCycle && job.slave.dc.Some?
      modifies this`dc
      ensures Valid() && Linked(Record(dev)) && dc != null && Budget() <= old(Budget())
      ensures forall o :: o in Repr() && o !in old(Repr()) ==> fresh(o)
    {
      hide Before, Cost, Record, Due, DueQueue, ChangeTarget, Skip, Whole;
      ClockAlone(job, Here());
      if dc == null {
        dc := new FsmDc.FsmDc(job.station, job.slave.dc.value, job.dcRef, dev);
      }
    }

    /** The clock is set up; the record is the plan up to SAFE-OP. */
    ghost predicate ClockSet(t: Trace)
      reads this, link
    {
      && change == null && queue == null && link.Valid() && link.Idle() && rd.Valid() && phase == DcCycle
      && PlaceOk(job, Here().(phase := ToSafeop)) && t.events == base + Before(job, Here().(phase := ToSafeop), rd)
    }

    method StepClock(dev: Device, index: byte) returns (r: Outcome<bool>, next: byte)
      requires Valid() && Linked(Record(dev)) && dc != null
      modifies this`rd, dc.Repr(), dev
      ensures r.Ok? && !r.value ==> Valid() && Linked(Record(dev)) && Budget() < old(Budget()) && phase != Phase.Done
      ensures r.Err? ==> Stopped(old(Record(dev)), Record(dev))
      ensures r.Ok? && r.value ==>
        ClockSet(Record(dev)) && Cost(job, Here().(phase := ToSafeop)) < old(Budget())
    {
      hide Stopped, Record, FsmDc.DcEvents, Before, Cost, Whole, Due, DueQueue, ChangeTarget, Skip;
      hide FsmDc.FsmDc.Valid, FsmDc.FsmDc.Linked, FsmDc.FsmDc.Budget, FsmDc.FsmDc.Repr;
      ghost var was := rd;
      ClockAlone(job, Here());
      dc.UnderWay();
      r, next := dc.Step(dev, index);
      if r.Ok? && r.value {
        rd := dc.rd;
        dc.UnderWay();
        ClockIsNext(job, Here(), was, rd);
      }
    }

    method RunClock(dev: Device, index: byte) returns (r: Outcome<bool>, next: byte)
      requires Valid() && Linked(Record(dev)) && dc != null
      modifies this`phase, this`smIdx, this`pdoIdx, this`fmmuIdx, this`dc, this`rd, dc.Repr(), dev
      ensures forall o :: o in Repr() && o !in old(Repr()) ==> fresh(o)
      ensures r.Ok? ==> Valid() && Linked(Record(dev)) && !r.value && phase != Phase.Done && Budget() < old(Budget())
      ensures r.Err? ==> Stopped(old(Record(dev)), Record(dev))
    {
      hide Stopped, Before, Cost, Record, Valid, Linked, Budget;
      r, next := StepClock(dev, index);
      if r.Err? || !r.value {
        return;
      }
      dc := null;
      Goto(Here().(phase := ToSafeop), Record(dev));
      return Ok(false), next;
    }

    // ---- Where it may stop ----

    /** What is on record so far is a beginning of the plan. */
    ghost predicate OnPlan(t: Trace) {
      exists rd', n: nat :: StopsAt(t, rd', n, [])
    }

    /** The bring-up has come to a stop: on record are the first events of the plan, in order,
        and, if more than one slave took the write that followed, that. */
    ghost predicate Halted(t: Trace) {
      OnPlan(t) || exists rd', n: nat, s, ado, d :: StopsAt(t, rd', n, [Clashed(s, ado, d)])
    }

    ghost predicate StopsAt(t: Trace, rd': FsmDc.Readings, n: nat, last: seq<Event>) {
      rd'.Valid() && n <= |Plan(job, rd')| && t.events == base + Plan(job, rd')[..n] + last
    }

    lemma FromPrefix(t: Trace, rd': FsmDc.Readings, evs: seq<Event>)
      requires rd'.Valid() && evs <= Plan(job, rd') && t.events == base + evs
      ensures OnPlan(t)
    {
      hide Plan;
      assert StopsAt(t, rd', |evs|, []);
    }

    /** At every point of the bring-up. */
    lemma LinkedOnPlan(t: Trace)
      requires Valid() && Linked(t)
      ensures OnPlan(t)
    {
      hide Plan, Before, Valid, Linked, OnPlan, FsmChange.ChangeEvents, FsmDc.DcEvents, FsmCoe.SeqEvents;
      var p := Here();
      ValidPlace();
      if change != null {
        var evs := ChangeSoFar(t);
        ChangeIsNext(job, p, rd);
        BeforeIsPrefix(job, AfterChange(p), rd);
        FromPrefix(t, rd, Before(job, p, rd) + evs);
      } else if queue != null {
        var evs := QueueSoFar(t);
        QueueIsNext(job, p, rd);
        BeforeIsPrefix(job, AfterQueue(p), rd);
        FromPrefix(t, rd, Before(job, p, rd) + evs);
      } else if dc != null {
        var evs := ClockSoFar(t);
        ClockIsNext(job, p, rd, dc.rd);
        BeforeIsPrefix(job, p.(phase := ToSafeop), dc.rd);
        FromPrefix(t, dc.rd, Before(job, p, rd) + evs);
      } else {
        assert t.events == base + Before(job, p, rd) by { IdleSoFar(t); }
        BeforeIsPrefix(job, p, rd);
        FromPrefix(t, rd, Before(job, p, rd));
      }
    }

    lemma IdleSoFar(t: Trace)
      requires Valid() && Linked(t) && change == null && queue == null && dc == null
      ensures t.events == base + Before(job, Here(), rd)
    {
    }

    lemma ChangeSoFar(t: Trace) returns (evs: seq<Event>)
      requires Valid() && Linked(t) && change != null
      ensures ChangeTarget(Here()).Some? && evs <= FsmChange.ChangeEvents(job.station, ChangeTarget(Here()).value)
      ensures t.events == base + (Before(job, Here(), rd) + evs)
    {
      hide Before;
      evs := change.Progress();
      assert t.events == change.base + evs;
    }

    lemma QueueSoFar(t: Trace) returns (evs: seq<Event>)
      requires Valid() && Linked(t) && change == null && queue != null
      ensures DueQueue(job, Here()).Some? && evs <= FsmCoe.SeqEvents(job.mbox, PushAll(DueQueue(job, Here()).value))
      ensures t.events == base + (Before(job, Here(), rd) + evs)
    {
      hide Before, FsmCoe.SeqEvents, PushAll, FsmCoe.CoeSeq.Linked;
      evs := queue.SoFar(t);
      assert t.events == queue.base + evs;
    }

    lemma ClockSoFar(t: Trace) returns (evs: seq<Event>)
      requires Valid() && Linked(t) && change == null && queue == null && dc != null
      ensures dc.rd.Valid() && phase == DcCycle && job.slave.dc.Some?
      ensures evs <= FsmDc.DcEvents(job.station, job.slave.dc.value, job.dcRef, dc.rd)
      ensures t.events == base + (Before(job, Here(), rd) + evs)
    {
      hide Before;
      evs := dc.Progress();
      dc.ProgressIsPrefix();
      assert t.events == dc.base + evs;
    }

    lemma HaltedNow(was: Trace, t: Trace)
      requires OnPlan(was) && Stopped(was, t)
      ensures Halted(t)
    {
      hide Plan;
      var rd', n: nat :| StopsAt(was, rd', n, []);
      assert was.events == base + Plan(job, rd')[..n];
      if t.events == was.events {
        assert StopsAt(t, rd', n, []);
      } else {
        var s, ado, d :| t.events == was.events + [Clashed(s, ado, d)];
        assert StopsAt(t, rd', n, [Clashed(s, ado, d)]);
      }
    }

    // ---- The step ----

    /** One exchange of the bring-up. On success the slave has shown SAFE-OP, and what it was
        sent and acknowledged is the plan: every write, in order, once; a step that fails leaves
        a beginning of it. */
    method Step(dev: Device, index: byte) returns (r: Outcome<bool>, next: byte)
      requires Valid() && Linked(Record(dev))
      modifies Repr(), dev
      ensures forall o :: o in Repr() && o !in old(Repr()) ==> fresh(o)
      ensures r.Ok? ==> Valid() && Linked(Record(dev)) && (r.value <==> phase == Phase.Done)
      ensures r.Err? ==> Stopped(old(Record(dev)), Record(dev)) && Halted(Record(dev))
      ensures r.Ok? && !r.value ==> Budget() < old(Budget())
    {
      hide Stopped, Before, Cost, Record, Valid, Linked, Budget, Due, DueQueue, ChangeTarget, Skip, OnPlan, Halted;
      LinkedOnPlan(Record(dev));
      next := index;
      assert PlaceOk(job, Here()) by { ValidPlace(); }
      Cases(job, Here());
      if phase == Phase.Done {
        return Ok(true), next;
      }
      if Skip(job, Here()).Some? {
        MoveOn(Record(dev));
        return Ok(false), next;
      }
      if ChangeTarget(Here()).Some? {
        BeginChange(dev);
        r, next := RunChange(dev, index);
      } else if Due(job, Here()).Some? {
        r, next := Fpwr(dev, index);
      } else if DueQueue(job, Here()).Some? {
        BeginQueue(dev);
        r, next := RunQueue(dev, index);
      } else {
        BeginClock(dev);
        r, next := RunClock(dev, index);
      }
      if r.Err? {
        HaltedNow(old(Record(dev)), Record(dev));
      }
    }

    lemma ValidPlace()
      requires Valid()
      ensures PlaceOk(job, Here()) && rd.Valid()
    {
    }
  }
}
