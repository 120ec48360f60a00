/** Bringing every configured slave to SAFE-OP, one after the other
    (src/ethercat/master.rs:456-526). */
module ConfigSeq {
  import opened Bytes
  import opened Config
  import opened Datagram
  import opened Device
  import opened Ecrt
  import opened Link
  import opened Trace
  import opened SlaveConfig
  import opened ScanSpec
  import FsmDc
  import FSC = FsmSlaveConfig

  /** The first scanned slave at a ring position. */
  function FindRing(slaves: seq<SlaveInfo>, pos: word): (r: Option<SlaveInfo>)
    ensures r.Some? ==> r.value in slaves && r.value.ringPos == pos
    ensures r.None? ==> forall s <- slaves :: s.ringPos != pos
  {
    if slaves == [] then None
    else if slaves[0].ringPos == pos then Some(slaves[0])
    else FindRing(slaves[1..], pos)
  }

  function MailboxOf(s: SlaveInfo): Mailbox { Mailbox(s.station, s.rxOffset, s.rxSize, s.txOffset, s.txSize) }

  /** Followers are compensated against the reference clock's slave. */
  function DcRefOf(slaves: seq<SlaveInfo>, refClock: word, info: SlaveInfo): FsmDc.DcRef {
    match FindRing(slaves, refClock)
    case Some(r) => if r.station != info.station then FsmDc.DcRef(r.station, true) else FsmDc.DcRef(0, false)
    case None => FsmDc.DcRef(0, false)
  }

  /** The work order for a configured slave, if it is on the bus. */
  function JobFor(cfg: SlaveCfg, slaves: seq<SlaveInfo>, refClock: word): Option<Job> {
    match FindRing(slaves, cfg.position)
    case None => None
    case Some(info) => Some(Job(cfg, info.station, MailboxOf(info), DcRefOf(slaves, refClock, info)))
  }

  datatype BusCfg = BusCfg(slaves: seq<SlaveCfg>, refClock: word)

  /** The plans of the first slaves, in order, given what their clocks said. */
  ghost function Plans(bus: BusCfg, slaves: seq<SlaveInfo>, rds: seq<FsmDc.Readings>): seq<Event>
    requires |rds| <= |bus.slaves| && Present(bus, slaves, |rds|)
    requires forall rd <- rds :: rd.Valid()
  {
    if rds == [] then []
    else
      var n := |rds| - 1;
      Plans(bus, slaves, rds[..n]) + Plan(JobFor(bus.slaves[n], slaves, bus.refClock).value, rds[n])
  }

  /** The first `n` configured slaves are on the bus. */
  ghost predicate Present(bus: BusCfg, slaves: seq<SlaveInfo>, n: nat)
    requires n <= |bus.slaves|
  {
    forall i :: 0 <= i < n ==> JobFor(bus.slaves[i], slaves, bus.refClock).Some?
  }

  /** Station and ring position of the first `n` configured slaves, as far as the list holds. */
  function Collected(bus: BusCfg, slaves: seq<SlaveInfo>, n: nat): (r: seq<(word, word)>)
    requires n <= |bus.slaves|
    ensures |r| <= MAX_SLAVES
  {
    if n == 0 then []
    else
      var r, job := Collected(bus, slaves, n - 1), JobFor(bus.slaves[n - 1], slaves, bus.refClock);
      if job.Some? && |r| < MAX_SLAVES then r + [(job.value.station, bus.slaves[n - 1].position)] else r
  }

  /** Where all of up to 32 configured slaves are on the bus, each is handed on under its own
      station and ring position, in order. */
  lemma {:induction false} CollectedIs(bus: BusCfg, slaves: seq<SlaveInfo>, n: nat, i: nat)
    requires i < n <= |bus.slaves| && n <= MAX_SLAVES && Present(bus, slaves, n)
    ensures var r, info := Collected(bus, slaves, n), FindRing(slaves, bus.slaves[i].position);
      |r| == n && info.Some? && r[i].0 == info.value.station && r[i].1 == info.value.ringPos
  {
    assert JobFor(bus.slaves[n - 1], slaves, bus.refClock).Some?;
    if n > 1 {
      CollectedIs(bus, slaves, n - 1, if i < n - 1 then i else 0);
    }
  }

  const START: Place := Place(ClearFmmus, 0, 0, 0)

  /** Steps the slaves from `i` on can take. */
  function SlaveSteps(bus: BusCfg, slaves: seq<SlaveInfo>, i: nat): nat
    requires i <= |bus.slaves|
    decreases |bus.slaves| - i
  {
    if i == |bus.slaves| then 0
    else
      (match JobFor(bus.slaves[i], slaves, bus.refClock)
       case None => 0
       case Some(j) => Cost(j, START)) + 1 + SlaveSteps(bus, slaves, i + 1)
  }

  class ConfigSeq {
    const bus: BusCfg
    const slaves: seq<SlaveInfo>
    var idx: nat
    var fsm: FSC.FsmSlaveConfig?
    /** Station and ring position of each slave begun, for the cyclic engine. */
    var ready: seq<(word, word)>
    ghost var rds: seq<FsmDc.Readings>
    ghost const base: seq<Event>

    ghost function Repr(): set<object>
      reads this, fsm, if fsm != null then {fsm.queue} else {}
    {
      {this} + if fsm != null then fsm.Repr() else {}
    }

    constructor (bus: BusCfg, slaves: seq<SlaveInfo>, ghost dev: Device)
      ensures Valid() && fresh(Repr()) && Linked(Record(dev)) && Budget() == SlaveSteps(bus, slaves, 0)
      ensures this.bus == bus && this.slaves == slaves && base == Record(dev).events && fsm == null && Repr() == {this}
    {
      this.bus, this.slaves, idx, fsm, ready, rds := bus, slaves, 0, null, [], [];
      base := Record(dev).events;
    }

    ghost predicate Valid()
      reads this, fsm, if fsm != null then {fsm.queue} else {}, Repr()
    {
      && idx <= |bus.slaves| && |rds| == idx && Present(bus, slaves, idx) && (forall rd <- rds :: rd.Valid())
      && (fsm == null ==> ready == Collected(bus, slaves, idx))
      && (fsm != null ==>
        && this !in fsm.Repr() && idx < |bus.slaves| && ready == Collected(bus, slaves, idx + 1)
        && JobFor(bus.slaves[idx], slaves, bus.refClock) == Some(fsm.job)
        && fsm.Valid() && fsm.phase != Phase.Done && fsm.base == base + Plans(bus, slaves, rds))
    }

    /** The record is what it was at the start, and the plans up to where the sequence stands. */
    ghost predicate Linked(t: Trace)
      reads this, fsm, if fsm != null then {fsm.queue} else {}, Repr()
      requires Valid()
    {
      if fsm != null then fsm.Linked(t) else t.events == base + Plans(bus, slaves, rds)
    }

    ghost function Budget(): nat
      reads this, fsm, if fsm != null then {fsm.queue} else {}, Repr()
      requires Valid()
    {
      if fsm != null then fsm.Budget() + 1 + SlaveSteps(bus, slaves, idx + 1) else SlaveSteps(bus, slaves, idx)
    }

    /** Every slave is done, and the record says so. */
    ghost predicate Complete(t: Trace)
      reads this, fsm, if fsm != null then {fsm.queue} else {}, Repr()
    {
      && Valid() && idx == |bus.slaves| && fsm == null && t.events == base + Plans(bus, slaves, rds)
      && ready == Collected(bus, slaves, |bus.slaves|)
    }

    /** The sequence has come to a stop: the plans of the slaves before are on record, and at
        most a beginning of the plan of the one under way. */
    ghost predicate Halted(t: Trace)
      reads this, fsm
    {
      && |rds| <= |bus.slaves| && Present(bus, slaves, |rds|) && (forall rd <- rds :: rd.Valid())
      && if fsm == null then t.events == base + Plans(bus, slaves, rds)
         else fsm.base == base + Plans(bus, slaves, rds) && fsm.Halted(t)
    }

    /** Start on the slave due: found by ring position, its clock context worked out. */
    method Begin(ghost dev: Device) returns (ok: bool)
      requires Valid() && Linked(Record(dev)) && idx < |bus.slaves|
      modifies this`fsm, this`ready
      ensures ok ==> Valid() && Linked(Record(dev)) && fsm != null && Budget() <= old(Budget())
      ensures fresh(Repr() - old(Repr()))
      ensures !ok ==> JobFor(bus.slaves[idx], slaves, bus.refClock).None? && Halted(Record(dev))
    {
      hide Record, Cost, Plan, Plans, Before, JobFor;
      hide FSC.FsmSlaveConfig.Valid, FSC.FsmSlaveConfig.Linked, FSC.FsmSlaveConfig.Budget, FSC.FsmSlaveConfig.Repr;
      if fsm == null {
        var job := JobFor(bus.slaves[idx], slaves, bus.refClock);
        if job.None? {
          return false;
        }
        if |ready| < MAX_SLAVES {
          ready := ready + [(job.value.station, bus.slaves[idx].position)];
        }
        fsm := new FSC.FsmSlaveConfig(job.value, dev);
      }
      return true;
    }

    /** The slave is at SAFE-OP: its plan is on record, on to the next. */
    method Advance(ghost dev: Device)
      requires Valid0() && fsm.phase == Phase.Done && fsm.Linked(Record(dev))
      modifies this`fsm, this`idx, this`rds
      ensures Valid() && Linked(Record(dev)) && fsm == null && idx == old(idx) + 1 && Repr() == {this}
      ensures Budget() == SlaveSteps(bus, slaves, old(idx) + 1)
    {
      hide Record, Plan, JobFor, Collected, FSC.FsmSlaveConfig.LinkOk, FSC.FsmSlaveConfig.ChangeOk,
        FSC.FsmSlaveConfig.QueueOk, FSC.FsmSlaveConfig.ClockOk;
      assert fsm.Linked(Record(dev)) ==> Record(dev).events == fsm.base + Plan(fsm.job, fsm.rd) by {
        AtEnd(fsm, Record(dev));
      }
      hide FSC.FsmSlaveConfig.Linked;
      ghost var was := rds;
      rds := rds + [fsm.rd];
      assert rds[..|rds| - 1] == was;
      fsm, idx := null, idx + 1;
    }

    /** `Valid`, but for a slave that may just have finished. */
    ghost predicate Valid0()
      reads this, fsm, if fsm != null then {fsm.queue} else {}, Repr()
    {
      && idx < |bus.slaves| && |rds| == idx && Present(bus, slaves, idx) && (forall rd <- rds :: rd.Valid())
      && fsm != null && this !in fsm.Repr() && JobFor(bus.slaves[idx], slaves, bus.refClock) == Some(fsm.job)
      && fsm.Valid() && fsm.base == base + Plans(bus, slaves, rds) && ready == Collected(bus, slaves, idx + 1)
    }

    /** One exchange of the slave under way; a failure leaves the plans done and a beginning of
        the one under way. On success every configured slave is at SAFE-OP,
        and what the bus acknowledged is all their plans, in ring order. */
    method Step(dev: Device, index: byte) returns (r: Outcome<bool>, next: byte)
      requires Valid() && Linked(Record(dev))
      modifies Repr(), dev
      ensures forall o :: o in Repr() && o !in old(Repr()) ==> fresh(o)
      ensures r.Ok? ==> Valid() && Linked(Record(dev)) && (r.value ==> Complete(Record(dev)))
      ensures r.Ok? && !r.value ==> Budget() < old(Budget())
      ensures r.Err? ==> Stopped(old(Record(dev)), Record(dev)) && Halted(Record(dev))
    {
      hide Record, Stopped, Plans, JobFor, SlaveSteps, Valid0, Halted;
      hide FSC.FsmSlaveConfig.Valid, FSC.FsmSlaveConfig.Linked, FSC.FsmSlaveConfig.Budget, FSC.FsmSlaveConfig.Repr;
      next := index;
      if idx >= |bus.slaves| {
        return Ok(true), next;
      }
      var ok := Begin(dev);
      if !ok {
        StoppedBySame(old(Record(dev)), Record(dev));
        return Err(NoSuchSlave), next;
      }
      ghost var mid := fsm.Repr();
      label L:
      r, next := StepFsm(dev, index);
      ghost var now := fsm.Repr();
      assert forall o :: o in now - mid ==> fresh@L(o);
      forall o | o in Repr() && o !in old(Repr())
        ensures fresh(o)
      {
        assert o in now - mid || o in mid - old(Repr());
      }
      if r.Ok? && r.value {
        Advance(dev);
        return Ok(idx >= |bus.slaves|), next;
      }
    }

    /** The footprint holds every object the sequence reaches through. */
    lemma Parts()
      ensures this in Repr() && (fsm != null ==> fsm in Repr() && (fsm.queue != null ==> fsm.queue in Repr()))
    {
    }

    method StepFsm(dev: Device, index: byte) returns (r: Outcome<bool>, next: byte)
      requires Valid() && Linked(Record(dev)) && fsm != null
      modifies fsm.Repr(), dev
      ensures fresh(fsm.Repr() - old(fsm.Repr()))
      ensures r.Ok? && !r.value ==> Valid() && Linked(Record(dev)) && Budget() < old(Budget())
      ensures r.Ok? && r.value ==>
        && Valid0() && fsm.phase == Phase.Done && fsm.Linked(Record(dev))
        && SlaveSteps(bus, slaves, idx + 1) < old(Budget())
      ensures r.Err? ==> Stopped(old(Record(dev)), Record(dev)) && Halted(Record(dev))
    {
      hide Record, Stopped, Plans, JobFor, SlaveSteps, FSC.FsmSlaveConfig.Halted;
      hide FSC.FsmSlaveConfig.Valid, FSC.FsmSlaveConfig.Linked, FSC.FsmSlaveConfig.Budget, FSC.FsmSlaveConfig.Repr;
      r, next := fsm.Step(dev, index);
    }
  }

  lemma AtEnd(fsm: FSC.FsmSlaveConfig, t: Trace)
    requires fsm.Valid() && fsm.phase == Phase.Done && fsm.Linked(t)
    ensures t.events == fsm.base + Plan(fsm.job, fsm.rd)
  {
  }
}
