/** The whole bus after its bring-up: every slave comes out of the other slaves' plans
    untouched and out of its own configured, ready for the cyclic exchange
    (src/ethercat/master.rs:456-526 with src/ethercat/domain.rs:48-117). */
module BusBringUp {
  import opened Bytes
  import opened Config
  import opened Ecrt
  import opened EscPages
  import opened Trace
  import opened PdoConfig
  import opened SlaveConfig
  import opened Replay
  import CS = ConfigSeq
  import OD = ObjectDictionary
  import ScanSpec
  import FsmChange
  import FsmCoe
  import FsmDc
  import Clocks
  import ClockReplay
  import LrwRing
  import Layout
  import LayoutProofs

  /** Addressed writes go to `station` alone; broadcasts only latch the port times. */
  predicate Addressed(evs: seq<Event>, station: word) {
    forall ev <- evs :: (ev.Wrote? ==> ev.station == station)
      && (ev.Broadcast? ==> ev.ado == DC_RECV_TIME && |ev.data| == 4)
  }

  lemma AddressedConcat(a: seq<Event>, b: seq<Event>, station: word)
    requires Addressed(a, station) && Addressed(b, station)
    ensures Addressed(a + b, station)
  {
  }

  lemma {:induction false} QueueAddressed(j: Job, ops: seq<Request>)
    requires j.mbox.station == j.station
    ensures Addressed(FsmCoe.SeqEvents(j.mbox, ops), j.station)
  {
    if ops == [] {
    } else {
      QueueAddressed(j, ops[..|ops| - 1]);
    }
  }

  lemma {:induction false} PdosAddressed(j: Job, pdos: seq<PdoCfg>)
    requires j.mbox.station == j.station
    ensures Addressed(PdoEvents(j, pdos), j.station)
  {
    if pdos == [] {
    } else {
      hide PushAll, MappingRequests;
      PdosAddressed(j, pdos[..|pdos| - 1]);
      QueueAddressed(j, PushAll(MappingRequests(pdos[|pdos| - 1])));
    }
  }

  lemma {:induction false} MapAddressed(j: Job, sms: seq<SmCfg>)
    requires j.mbox.station == j.station
    ensures Addressed(MapEvents(j, sms), j.station)
  {
    if sms == [] {
    } else {
      MapAddressed(j, sms[..|sms| - 1]);
      PdosAddressed(j, sms[|sms| - 1].pdos);
    }
  }

  lemma {:induction false} AssignAddressed(j: Job, sms: seq<SmCfg>)
    requires j.mbox.station == j.station
    ensures Addressed(AssignEvents(j, sms), j.station)
  {
    if sms == [] {
    } else {
      hide PushAll, AssignRequests;
      AssignAddressed(j, sms[..|sms| - 1]);
      QueueAddressed(j, PushAll(AssignRequests(sms[|sms| - 1].index, sms[|sms| - 1].pdos)));
    }
  }

  lemma {:induction false} SmsAddressed(j: Job, sms: seq<SmCfg>)
    ensures Addressed(SmEvents(j, sms), j.station)
  {
    if sms == [] {
    } else {
      SmsAddressed(j, sms[..|sms| - 1]);
    }
  }

  lemma {:induction false} FmmusAddressed(j: Job, fmmus: seq<FmmuCfg>)
    ensures Addressed(FmmuEvents(j, fmmus), j.station)
  {
    if fmmus == [] {
    } else {
      FmmusAddressed(j, fmmus[..|fmmus| - 1]);
    }
  }

  lemma AfterClearAddressed(j: Job)
    requires j.mbox.station == j.station
    ensures Addressed(AfterClear(j), j.station)
  {
    hide PushAll, InitRequests, FsmCoe.SeqEvents, MapEvents, AssignEvents, SmEvents;
    QueueAddressed(j, PushAll(InitRequests(j.slave.sdoInit)));
    MapAddressed(j, j.slave.sms);
    AssignAddressed(j, j.slave.sms);
    SmsAddressed(j, j.slave.sms);
    assert Addressed(Opening(j)[1..], j.station) && Addressed(Watchdogs(j), j.station);
  }

  lemma TailAddressed(j: Job, rd: FsmDc.Readings)
    requires rd.Valid()
    ensures Addressed(ClockEvents(j, rd) + FsmChange.ChangeEvents(j.station, SAFEOP), j.station)
  {
    assert Addressed(ClockEvents(j, rd), j.station);
  }

  /** A plan writes to its own slave only. */
  lemma PlanAddressed(j: Job, rd: FsmDc.Readings)
    requires rd.Valid() && j.mbox.station == j.station
    ensures Addressed(Plan(j, rd), j.station)
  {
    hide Plan, AfterClear, FmmuEvents, ClockEvents, FsmChange.ChangeEvents;
    PlanAfterClear(j, rd);
    AfterClearAddressed(j);
    FmmusAddressed(j, j.slave.fmmus);
    TailAddressed(j, rd);
    AddressedConcat(AfterClear(j), FmmuEvents(j, j.slave.fmmus), j.station);
  }

  /** The same but for the latch of the port times. */
  predicate Alike(a: seq<byte>, b: seq<byte>) {
    |a| == |b| >= LrwRing.RAM && a[..0x0900] == b[..0x0900] && a[0x0904..] == b[0x0904..]
  }

  /** Another slave's plan leaves everything but the latch alone. */
  lemma {:induction false} OthersKeep(mem: seq<byte>, mine: word, other: word, evs: seq<Event>)
    requires Addressed(evs, other) && mine != other && LrwRing.RAM <= |mem|
    ensures Alike(Played(mem, mine, evs), mem)
  {
    if evs == [] {
    } else {
      var n := |evs| - 1;
      assert forall ev <- evs[..n] :: ev in evs;
      OthersKeep(mem, mine, other, evs[..n]);
      assert evs[n] in evs;
      var m := Played(mem, mine, evs[..n]);
      assert Alike(Take(m, mine, evs[n]), m);
    }
  }

  // ---- All plans, one after the other ----

  function JobAt(bus: CS.BusCfg, slaves: seq<ScanSpec.SlaveInfo>, i: nat): Option<Job>
    requires i < |bus.slaves|
  {
    CS.JobFor(bus.slaves[i], slaves, bus.refClock)
  }

  /** Work orders for different slaves, each with its mailbox in process RAM and at most
      sixteen mappings. */
  ghost predicate JobsOk(bus: CS.BusCfg, slaves: seq<ScanSpec.SlaveInfo>, n: nat)
    requires n <= |bus.slaves|
  {
    && CS.Present(bus, slaves, n)
    && (forall i :: 0 <= i < n ==> JobOk(bus, slaves, i))
    && (forall i, k :: 0 <= i < n && 0 <= k < n && i != k ==>
      JobAt(bus, slaves, i).Some? && JobAt(bus, slaves, k).Some?
      && JobAt(bus, slaves, i).value.station != JobAt(bus, slaves, k).value.station)
  }

  predicate JobOk(bus: CS.BusCfg, slaves: seq<ScanSpec.SlaveInfo>, i: nat)
    requires i < |bus.slaves|
  {
    match JobAt(bus, slaves, i)
    case None => false
    case Some(j) => MailboxInRam(j) && |j.slave.fmmus| <= 16
  }

  lemma MailboxIsOwn(bus: CS.BusCfg, slaves: seq<ScanSpec.SlaveInfo>, i: nat)
    requires i < |bus.slaves| && JobAt(bus, slaves, i).Some?
    ensures var j := JobAt(bus, slaves, i).value; j.mbox.station == j.station && j.slave == bus.slaves[i]
  {
  }

  /** What slave `k` holds after all plans is what its own plan leaves, from some memory
      `before` that is still the original one, up to the latch of the port times. */
  lemma {:induction false} OwnPlanDecides(mem: seq<byte>, bus: CS.BusCfg, slaves: seq<ScanSpec.SlaveInfo>,
      rds: seq<FsmDc.Readings>, k: nat)
    returns (before: seq<byte>)
    requires |rds| <= |bus.slaves| && k < |rds| && JobsOk(bus, slaves, |rds|) && (forall rd <- rds :: rd.Valid())
      && LrwRing.RAM <= |mem|
    ensures Alike(before, mem)
    ensures var j := JobAt(bus, slaves, k).value;
      Alike(Played(mem, j.station, CS.Plans(bus, slaves, rds)), Played(before, j.station, Plan(j, rds[k])))
  {
    hide Plan, Played, CS.JobFor;
    var n, j := |rds| - 1, JobAt(bus, slaves, k).value;
    var last, init := JobAt(bus, slaves, n).value, CS.Plans(bus, slaves, rds[..n]);
    assert forall rd <- rds[..n] :: rd in rds;
    assert rds[n] in rds;
    PlayedConcat(mem, j.station, init, Plan(last, rds[n]));
    if k == n {
      before := Played(mem, j.station, init);
      OnlyOthers(mem, bus, slaves, rds[..n], j.station);
    } else {
      before := OwnPlanDecides(mem, bus, slaves, rds[..n], k);
      assert rds[..n][k] == rds[k];
      MailboxIsOwn(bus, slaves, n);
      PlanAddressed(last, rds[n]);
      OthersKeep(Played(mem, j.station, init), j.station, last.station, Plan(last, rds[n]));
    }
  }

  lemma {:induction false} OnlyOthers(mem: seq<byte>, bus: CS.BusCfg, slaves: seq<ScanSpec.SlaveInfo>,
      rds: seq<FsmDc.Readings>, mine: word)
    requires |rds| <= |bus.slaves| && JobsOk(bus, slaves, |rds|) && (forall rd <- rds :: rd.Valid())
      && LrwRing.RAM <= |mem|
    requires forall i :: 0 <= i < |rds| ==> JobAt(bus, slaves, i).Some? && JobAt(bus, slaves, i).value.station != mine
    ensures Alike(Played(mem, mine, CS.Plans(bus, slaves, rds)), mem)
  {
    hide Plan, CS.JobFor;
    if rds == [] {
    } else {
      var n := |rds| - 1;
      var last, init := JobAt(bus, slaves, n).value, CS.Plans(bus, slaves, rds[..n]);
      assert forall rd <- rds[..n] :: rd in rds;
      assert rds[n] in rds;
      OnlyOthers(mem, bus, slaves, rds[..n], mine);
      PlayedConcat(mem, mine, init, Plan(last, rds[n]));
      MailboxIsOwn(bus, slaves, n);
      PlanAddressed(last, rds[n]);
      OthersKeep(Played(mem, mine, init), mine, last.station, Plan(last, rds[n]));
    }
  }

  /** Every slave of a brought-up bus is configured for the cyclic exchange, exactly if its
      FMMU channels beyond the three that are cleared were off. */
  lemma BusConfiguredIff(e: LrwRing.Slave, bus: CS.BusCfg, slaves: seq<ScanSpec.SlaveInfo>, rds: seq<FsmDc.Readings>,
      k: nat)
    requires |rds| == |bus.slaves| && k < |rds| && JobsOk(bus, slaves, |rds|) && (forall rd <- rds :: rd.Valid())
    requires 2 <= e.fmmus <= 16 && |bus.slaves[k].fmmus| == 2
    requires bus.slaves[k].fmmus[0].dir == Output && bus.slaves[k].fmmus[1].dir == Input
    ensures var j := JobAt(bus, slaves, k).value;
      LrwRing.Configured(e.(mem := Played(e.mem, j.station, CS.Plans(bus, slaves, rds))), bus.slaves[k])
      <==> forall i :: 3 <= i < e.fmmus ==> LrwRing.Channel(e, i) == None
  {
    hide Plan, CS.Plans, Played, CS.JobFor;
    var j := JobAt(bus, slaves, k).value;
    var before := OwnPlanDecides(e.mem, bus, slaves, rds, k);
    assert rds[k] in rds;
    MailboxIsOwn(bus, slaves, k);
    assert JobOk(bus, slaves, k);
    var b := e.(mem := before);
    BringUpConfiguresIff(b, j, rds[k]);
    hide JobsOk, JobAt, JobOk;
    SameChannels(b, e);
    SameConfigured(b.(mem := Played(before, j.station, Plan(j, rds[k]))),
      e.(mem := Played(e.mem, j.station, CS.Plans(bus, slaves, rds))), bus.slaves[k]);
  }

  lemma SubSlice(x: seq<byte>, n: nat, lo: nat, hi: nat)
    requires lo <= hi <= n <= |x|
    ensures x[..n][lo..hi] == x[lo..hi]
  {
  }

  /** Slaves alike below the clocks have the same channels. */
  lemma SameChannels(a: LrwRing.Slave, b: LrwRing.Slave)
    requires a.fmmus == b.fmmus <= 16 && a.mem[..DC_RECV_TIME] == b.mem[..DC_RECV_TIME]
    ensures forall i :: 0 <= i < a.fmmus ==> LrwRing.Channel(a, i) == LrwRing.Channel(b, i)
  {
    forall i | 0 <= i < a.fmmus
      ensures LrwRing.Channel(a, i) == LrwRing.Channel(b, i)
    {
      var lo, hi := FMMU_BASE + FMMU_PAGE * i, FMMU_BASE + FMMU_PAGE * (i + 1);
      SubSlice(a.mem, DC_RECV_TIME, lo, hi);
      SubSlice(b.mem, DC_RECV_TIME, lo, hi);
    }
  }

  lemma SameConfigured(a: LrwRing.Slave, b: LrwRing.Slave, c: LrwRing.GenCfg)
    requires 2 <= a.fmmus == b.fmmus <= 16 && a.mem[..DC_RECV_TIME] == b.mem[..DC_RECV_TIME]
    ensures LrwRing.Configured(a, c) <==> LrwRing.Configured(b, c)
  {
    SameChannels(a, b);
    var at := FMMU_BASE;
    SubSlice(a.mem, DC_RECV_TIME, at, at + 16);
    SubSlice(b.mem, DC_RECV_TIME, at, at + 16);
    SubSlice(a.mem, DC_RECV_TIME, at + 16, at + 32);
    SubSlice(b.mem, DC_RECV_TIME, at + 16, at + 32);
    hide LrwRing.Channel, FmmuPage;
  }

  lemma SubDrop(x: seq<byte>, n: nat, lo: nat, hi: nat)
    requires n <= lo <= hi <= |x|
    ensures x[n..][lo - n..hi - n] == x[lo..hi]
  {
  }

  lemma AlikeAt(a: seq<byte>, b: seq<byte>, lo: nat, hi: nat)
    requires Alike(a, b) && lo <= hi <= |a| && (hi <= 0x0900 || 0x0904 <= lo)
    ensures a[lo..hi] == b[lo..hi]
  {
    if hi <= 0x0900 {
      SubSlice(a, 0x0900, lo, hi);
      SubSlice(b, 0x0900, lo, hi);
    } else {
      SubDrop(a, 0x0904, lo, hi);
      SubDrop(b, 0x0904, lo, hi);
    }
  }

  lemma AlikeLen(a: seq<byte>, b: seq<byte>)
    requires Alike(a, b)
    ensures |a| == |b| >= LrwRing.RAM
  {
  }

  /** A slave's sync managers: its own mailbox windows first, then its process data. */
  predicate WindowsSet(m: seq<byte>, info: ScanSpec.SlaveInfo, sms: seq<SmCfg>)
    requires LrwRing.RAM <= |m|
  {
    && DecodeSm(m[0x0800..0x0808]) == Window(info.rxOffset, info.rxSize, 0x26, true)
    && DecodeSm(m[0x0808..0x0810]) == Window(info.txOffset, info.txSize, 0x22, true)
    && forall sm <- sms ::
      var at := 0x0800 + 8 * sm.index;
      DecodeSm(m[at..at + 8]) == Window(sm.physStart, sm.size, sm.control, sm.size > 0)
  }

  /** A slave's clock registers, given what the clocks said. */
  predicate ClockSet(m: seq<byte>, cfg: DcCfg, rd: FsmDc.Readings, follower: bool)
    requires LrwRing.RAM <= |m| && rd.Valid()
  {
    && FromLe(m[0x09A0..0x09A4]) == cfg.sync0Cycle && FromLe(m[0x09A4..0x09A8]) == cfg.sync1Cycle
    && FromLe(m[0x0980..0x0982]) == cfg.assignActivate
    && ClockReplay.PulseDue(m, cfg, if follower then rd.sample.ref else rd.now)
    && (follower ==>
      && FromLe(m[0x0920..0x0928]) == Clocks.NewOffset(rd.sample)
      && FromLe(m[0x0928..0x092C]) == Clocks.PropagationDelay(rd.refPorts, rd.folPorts))
  }

  lemma ClockAlike(a: seq<byte>, b: seq<byte>, cfg: DcCfg, rd: FsmDc.Readings, follower: bool)
    requires Alike(a, b) && rd.Valid() && ClockSet(b, cfg, rd, follower)
    ensures ClockSet(a, cfg, rd, follower)
  {
    AlikeAt(a, b, 0x09A0, 0x09A4);
    AlikeAt(a, b, 0x09A4, 0x09A8);
    AlikeAt(a, b, 0x0980, 0x0982);
    AlikeAt(a, b, 0x0990, 0x0998);
    AlikeAt(a, b, 0x0920, 0x0928);
    AlikeAt(a, b, 0x0928, 0x092C);
    hide FromLe, Alike, Clocks.NewOffset, Clocks.PropagationDelay, Clocks.StartFits;
  }

  lemma WindowsAlike(a: seq<byte>, b: seq<byte>, info: ScanSpec.SlaveInfo, sms: seq<SmCfg>)
    requires Alike(a, b) && WindowsSet(b, info, sms) && forall sm <- sms :: sm.index < 32
    ensures WindowsSet(a, info, sms)
  {
    hide DecodeSm, Alike;
    AlikeLen(a, b);
    AlikeAt(a, b, 0x0800, 0x0808);
    AlikeAt(a, b, 0x0808, 0x0810);
    forall sm | sm in sms
      ensures var at := 0x0800 + 8 * sm.index;
        DecodeSm(a[at..at + 8]) == Window(sm.physStart, sm.size, sm.control, sm.size > 0)
    {
      AlikeAt(a, b, 0x0800 + 8 * sm.index, 0x0808 + 8 * sm.index);
    }
  }

  lemma OwnWindows(mem: seq<byte>, j: Job, rd: FsmDc.Readings, info: ScanSpec.SlaveInfo)
    requires rd.Valid() && MailboxInRam(j) && SmsOk(j.slave.sms) && |j.slave.fmmus| <= 16 && LrwRing.RAM <= |mem|
      && j.mbox == CS.MailboxOf(info)
    ensures WindowsSet(Played(mem, j.station, Plan(j, rd)), info, j.slave.sms)
  {
    hide Plan, Played, DecodeSm;
    MailboxConfigured(mem, j, rd);
    var m := Played(mem, j.station, Plan(j, rd));
    forall sm | sm in j.slave.sms
      ensures var at := 0x0800 + 8 * sm.index;
        DecodeSm(m[at..at + 8]) == Window(sm.physStart, sm.size, sm.control, sm.size > 0)
    {
      var i :| 0 <= i < |j.slave.sms| && j.slave.sms[i] == sm;
      SmsConfigured(mem, j, rd, i, 0x0800 + 8 * sm.index);
    }
  }

  /** The whole bus: the slave scanned at a configured position finds its own mailbox windows,
      those the scan read from it, in its first two sync managers, and its own process data in
      the others. */
  lemma BusWindows(mem: seq<byte>, bus: CS.BusCfg, slaves: seq<ScanSpec.SlaveInfo>, rds: seq<FsmDc.Readings>, k: nat,
      info: ScanSpec.SlaveInfo)
    requires |rds| == |bus.slaves| && k < |rds| && JobsOk(bus, slaves, |rds|) && (forall rd <- rds :: rd.Valid())
      && LrwRing.RAM <= |mem| && SmsOk(bus.slaves[k].sms)
    requires CS.FindRing(slaves, bus.slaves[k].position) == Some(info)
    ensures WindowsSet(Played(mem, info.station, CS.Plans(bus, slaves, rds)), info, bus.slaves[k].sms)
  {
    hide Plan, CS.Plans, Played, WindowsSet, Alike;
    var j := JobAt(bus, slaves, k).value;
    assert rds[k] in rds && JobOk(bus, slaves, k);
    var before := OwnPlanDecides(mem, bus, slaves, rds, k);
    AlikeLen(before, mem);
    OwnWindows(before, j, rds[k], info);
    WindowsAlike(Played(mem, j.station, CS.Plans(bus, slaves, rds)), Played(before, j.station, Plan(j, rds[k])), info,
      bus.slaves[k].sms);
  }

  /** And every clock: its cycle times, its first pulse by the reference's clock for a follower
      and by its own otherwise, its activation, and a follower's correction. */
  lemma BusClocks(mem: seq<byte>, bus: CS.BusCfg, slaves: seq<ScanSpec.SlaveInfo>, rds: seq<FsmDc.Readings>, k: nat,
      info: ScanSpec.SlaveInfo)
    requires |rds| == |bus.slaves| && k < |rds| && JobsOk(bus, slaves, |rds|) && (forall rd <- rds :: rd.Valid())
      && LrwRing.RAM <= |mem| && bus.slaves[k].dc.Some?
    requires CS.FindRing(slaves, bus.slaves[k].position) == Some(info)
    ensures ClockSet(Played(mem, info.station, CS.Plans(bus, slaves, rds)), bus.slaves[k].dc.value, rds[k],
      Follower(bus, slaves, info))
  {
    hide Plan, CS.Plans, Played, ClockSet, Alike;
    var j := JobAt(bus, slaves, k).value;
    assert rds[k] in rds && JobOk(bus, slaves, k);
    var before := OwnPlanDecides(mem, bus, slaves, rds, k);
    AlikeLen(before, mem);
    OwnClock(before, j, rds[k]);
    ClockAlike(Played(mem, j.station, CS.Plans(bus, slaves, rds)), Played(before, j.station, Plan(j, rds[k])),
      bus.slaves[k].dc.value, rds[k], j.dcRef.compensate);
  }

  lemma OwnClock(mem: seq<byte>, j: Job, rd: FsmDc.Readings)
    requires rd.Valid() && j.slave.dc.Some? && LrwRing.RAM <= |mem|
    ensures ClockSet(Played(mem, j.station, Plan(j, rd)), j.slave.dc.value, rd, j.dcRef.compensate)
  {
    hide Plan, Played, FromLe, Clocks.NewOffset, Clocks.PropagationDelay, Clocks.CyclicStart, ClockReplay.PulseDue;
    ClockReplay.ClockConfigured(mem, j, rd);
    ClockReplay.PulseFromStart(Played(mem, j.station, Plan(j, rd)), j.slave.dc.value, ClockReplay.Now(j, rd));
  }

  /** Another slave than the one at the reference clock's position. */
  predicate Follower(bus: CS.BusCfg, slaves: seq<ScanSpec.SlaveInfo>, info: ScanSpec.SlaveInfo) {
    exists r <- slaves :: CS.FindRing(slaves, bus.refClock) == Some(r) && r.station != info.station
  }

  // ---- Every dictionary ----

  lemma {:induction false} OthersSilent(od: OD.Od, j: Job, other: word, evs: seq<Event>)
    requires Addressed(evs, other) && j.station != other
    ensures OD.OdPlayed(od, j, evs) == od
  {
    if evs == [] {
    } else {
      var n := |evs| - 1;
      assert forall ev <- evs[..n] :: ev in evs;
      OthersSilent(od, j, other, evs[..n]);
      assert evs[n] in evs;
    }
  }

  /** Over the bring-up of the whole bus a slave's dictionary takes its own plan and nothing
      else. */
  lemma {:induction false} BusDictionary(od: OD.Od, bus: CS.BusCfg, slaves: seq<ScanSpec.SlaveInfo>,
      rds: seq<FsmDc.Readings>, k: nat)
    requires |rds| <= |bus.slaves| && k < |rds| && JobsOk(bus, slaves, |rds|) && (forall rd <- rds :: rd.Valid())
    ensures var j := JobAt(bus, slaves, k).value;
      OD.OdPlayed(od, j, CS.Plans(bus, slaves, rds)) == OD.OdPlayed(od, j, Plan(j, rds[k]))
  {
    hide Plan, OD.OdPlayed, CS.JobFor;
    var n, j := |rds| - 1, JobAt(bus, slaves, k).value;
    var last, init := JobAt(bus, slaves, n).value, CS.Plans(bus, slaves, rds[..n]);
    assert forall rd <- rds[..n] :: rd in rds;
    assert rds[n] in rds;
    OD.OdConcat(od, j, init, Plan(last, rds[n]));
    if k == n {
      DictionaryKept(od, bus, slaves, rds[..n], j);
    } else {
      BusDictionary(od, bus, slaves, rds[..n], k);
      assert rds[..n][k] == rds[k];
      MailboxIsOwn(bus, slaves, n);
      PlanAddressed(last, rds[n]);
      OthersSilent(OD.OdPlayed(od, j, init), j, last.station, Plan(last, rds[n]));
    }
  }

  lemma {:induction false} DictionaryKept(od: OD.Od, bus: CS.BusCfg, slaves: seq<ScanSpec.SlaveInfo>,
      rds: seq<FsmDc.Readings>, j: Job)
    requires |rds| <= |bus.slaves| && JobsOk(bus, slaves, |rds|) && (forall rd <- rds :: rd.Valid())
    requires forall i :: 0 <= i < |rds| ==>
      JobAt(bus, slaves, i).Some? && JobAt(bus, slaves, i).value.station != j.station
    ensures OD.OdPlayed(od, j, CS.Plans(bus, slaves, rds)) == od
  {
    hide Plan, CS.JobFor;
    if rds == [] {
    } else {
      var n := |rds| - 1;
      var last, init := JobAt(bus, slaves, n).value, CS.Plans(bus, slaves, rds[..n]);
      assert forall rd <- rds[..n] :: rd in rds;
      assert rds[n] in rds;
      DictionaryKept(od, bus, slaves, rds[..n], j);
      OD.OdConcat(od, j, init, Plan(last, rds[n]));
      MailboxIsOwn(bus, slaves, n);
      PlanAddressed(last, rds[n]);
      OthersSilent(OD.OdPlayed(od, j, init), j, last.station, Plan(last, rds[n]));
    }
  }

  // ---- All clocks together ----

  /** The start time that the plan of slave `i` writes. */
  ghost function StartOf(bus: CS.BusCfg, slaves: seq<ScanSpec.SlaveInfo>, rds: seq<FsmDc.Readings>, i: nat): qword
    requires i < |rds| <= |bus.slaves| && JobAt(bus, slaves, i).Some? && bus.slaves[i].dc.Some?
  {
    Clocks.CyclicStart(bus.slaves[i].dc.value, FsmDc.Epoch(JobAt(bus, slaves, i).value.dcRef, rds[i]))
  }

  lemma ClockInPlan(j: Job, rd: FsmDc.Readings)
    requires rd.Valid() && j.slave.dc.Some?
    ensures Wrote(j.station, DC_CYCLE_START,
      Clocks.Le64(Clocks.CyclicStart(j.slave.dc.value, FsmDc.Epoch(j.dcRef, rd)))) in Plan(j, rd)
  {
    hide UpToFmmus, FsmDc.AlignEvents, FsmChange.ChangeEvents, Clocks.CyclicStart, Clocks.Le64;
    var cfg := j.slave.dc.value;
    var y := FsmDc.SyncEvents(j.station, cfg, Clocks.CyclicStart(cfg, FsmDc.Epoch(j.dcRef, rd)));
    assert y[1] in y;
  }

  lemma {:induction false} StartWritten(bus: CS.BusCfg, slaves: seq<ScanSpec.SlaveInfo>, rds: seq<FsmDc.Readings>,
      i: nat)
    requires i < |rds| <= |bus.slaves| && CS.Present(bus, slaves, |rds|) && (forall rd <- rds :: rd.Valid())
    requires bus.slaves[i].dc.Some?
    ensures Wrote(JobAt(bus, slaves, i).value.station, DC_CYCLE_START, Clocks.Le64(StartOf(bus, slaves, rds, i)))
      in CS.Plans(bus, slaves, rds)
  {
    hide Plan, Clocks.CyclicStart, Clocks.Le64;
    var n := |rds| - 1;
    assert forall rd <- rds[..n] :: rd in rds;
    assert rds[i] in rds;
    if i == n {
      ClockInPlan(JobAt(bus, slaves, i).value, rds[i]);
    } else {
      StartWritten(bus, slaves, rds[..n], i);
    }
  }

  /** The clocks of a brought-up bus fire together: any two slaves with the same cycle and
      shift are written starts on the same phase, whenever each was configured, unless just one
      of the two sums overflowed and the cycle does not divide 2^64. */
  lemma ClocksFireTogether(bus: CS.BusCfg, slaves: seq<ScanSpec.SlaveInfo>, rds: seq<FsmDc.Readings>, i: nat, k: nat)
    requires i < |rds| <= |bus.slaves| && k < |rds| && CS.Present(bus, slaves, |rds|)
      && (forall rd <- rds :: rd.Valid())
    requires bus.slaves[i].dc.Some? && bus.slaves[k].dc.Some?
    requires var a, b := bus.slaves[i].dc.value, bus.slaves[k].dc.value;
      Clocks.Cycle(a) == Clocks.Cycle(b) && a.sync0Shift == b.sync0Shift
    ensures var a, b := bus.slaves[i].dc.value, bus.slaves[k].dc.value;
      var ea, eb := FsmDc.Epoch(JobAt(bus, slaves, i).value.dcRef, rds[i]),
        FsmDc.Epoch(JobAt(bus, slaves, k).value.dcRef, rds[k]);
      exists da, db ::
        && |da| == 8 && Wrote(JobAt(bus, slaves, i).value.station, DC_CYCLE_START, da) in CS.Plans(bus, slaves, rds)
        && |db| == 8 && Wrote(JobAt(bus, slaves, k).value.station, DC_CYCLE_START, db) in CS.Plans(bus, slaves, rds)
        && (Clocks.U64(da) % Clocks.Cycle(a) == Clocks.U64(db) % Clocks.Cycle(b)
          <==> (Clocks.Overflows(a, ea) <==> Clocks.Overflows(b, eb)) || WRAP64 % Clocks.Cycle(a) == 0)
  {
    hide CS.Plans, Clocks.Le64, Clocks.U64, Clocks.CyclicStart, Clocks.Overflows, Clocks.Cycle, FsmDc.Epoch;
    var a, b := bus.slaves[i].dc.value, bus.slaves[k].dc.value;
    var s, t := StartOf(bus, slaves, rds, i), StartOf(bus, slaves, rds, k);
    StartWritten(bus, slaves, rds, i);
    StartWritten(bus, slaves, rds, k);
    Clocks.Le64RoundTrip(s);
    Clocks.Le64RoundTrip(t);
    Clocks.StartsAgreeIff(a, b, FsmDc.Epoch(JobAt(bus, slaves, i).value.dcRef, rds[i]),
      FsmDc.Epoch(JobAt(bus, slaves, k).value.dcRef, rds[k]));
    var da, db := Clocks.Le64(s), Clocks.Le64(t);
    assert |da| == 8 && |db| == 8;
  }

  /** What a scan finds makes the work orders of a bus distinct: configured positions that
      differ are slaves that differ. */
  lemma ScanSeparates(bus: CS.BusCfg, slaves: seq<ScanSpec.SlaveInfo>, i: nat, k: nat)
    requires ScanSpec.InOrder(slaves) && |slaves| <= MAX_SLAVES
    requires i < |bus.slaves| && k < |bus.slaves| && bus.slaves[i].position != bus.slaves[k].position
    requires JobAt(bus, slaves, i).Some? && JobAt(bus, slaves, k).Some?
    ensures JobAt(bus, slaves, i).value.station != JobAt(bus, slaves, k).value.station
  {
    forall pos: word | CS.FindRing(slaves, pos).Some?
      ensures CS.FindRing(slaves, pos).value.station == pos + 1
    {
      var s := CS.FindRing(slaves, pos).value;
      var n :| 0 <= n < |slaves| && slaves[n] == s;
    }
  }

  /** The slaves' controllers after the bring-up of the whole bus. */
  function BroughtUp(es: seq<LrwRing.Slave>, bus: CS.BusCfg, slaves: seq<ScanSpec.SlaveInfo>,
      evs: seq<Event>): (r: seq<LrwRing.Slave>)
    requires |es| == |bus.slaves| && forall k :: 0 <= k < |es| ==> JobAt(bus, slaves, k).Some?
    ensures |r| == |es|
  {
    seq(|es|, k requires 0 <= k < |es| => es[k].(mem := Played(es[k].mem, JobAt(bus, slaves, k).value.station, evs)))
  }

  /** Generator, scan, bring-up and cyclic exchange meet: a bus resolved by the generator and
      brought up by the master satisfies everything the cyclic exchange asks for. */
  lemma BroughtUpBusIsReady(ss: seq<Layout.SlaveIn>, cs: seq<LrwRing.GenCfg>, es: seq<LrwRing.Slave>,
      bus: CS.BusCfg, slaves: seq<ScanSpec.SlaveInfo>, rds: seq<FsmDc.Readings>)
    requires LayoutProofs.Rendered(ss, cs) && cs == bus.slaves && |es| == |cs| == |rds|
    requires JobsOk(bus, slaves, |rds|) && (forall rd <- rds :: rd.Valid())
    requires forall e <- es :: 2 <= e.fmmus <= 16 && forall i :: 3 <= i < e.fmmus ==> LrwRing.Channel(e, i) == None
    requires forall c <- cs ::
      && LrwRing.RAM <= LrwRing.Out(c).physStart && LrwRing.Out(c).physStart + LrwRing.Out(c).size <= LrwRing.MEM
      && LrwRing.RAM <= LrwRing.In(c).physStart && LrwRing.In(c).physStart + LrwRing.In(c).size <= LrwRing.MEM
    ensures LrwRing.BusOk(BroughtUp(es, bus, slaves, CS.Plans(bus, slaves, rds)), cs,
      Layout.OutBase(ss) + Layout.InBase(ss))
  {
    hide LayoutProofs.Rendered, LrwRing.BusOk, LrwRing.Configured, CS.Plans, Played;
    var after := BroughtUp(es, bus, slaves, CS.Plans(bus, slaves, rds));
    forall k | 0 <= k < |cs|
      ensures LrwRing.Configured(after[k], cs[k])
    {
      assert es[k] in es;
      BusConfiguredIff(es[k], bus, slaves, rds, k);
    }
    LayoutProofs.LayoutGivesBus(ss, cs, after);
  }
}
