/** The cyclic engine object (src/ethercat/cyclic.rs): its fields and buffers changed in place,
    each method proved to be the corresponding step of `EngineSpec`. */
module Cyclic {
  import opened Bytes
  import opened Config
  import opened Datagram
  import opened Domain
  import opened Device
  import opened Ecrt
  import opened EngineSpec
  import Cia402
  import HB = HostBridge
  import SafeState

  class Cyclic {
    const domain: EcDomain
    var slaves: seq<SlaveRt>
    const refRingPos: word
    var phase: Phase
    const tx: array<byte>
    var txLen: nat
    var outstanding: bool
    var expectedIndex: byte
    var goodCycles: dword
    var totalCycles: dword
    var appended: seq<Appended>
    var opCursor: nat
    var opCtrl: bool
    var monToggle: bool
    var monCursor: nat
    var dcDiff: int
    var dcDiffMax: int
    var dcValid: bool
    const cia402: Cia402.Sequencer

    ghost function Repr(): set<object> { {this, domain, domain.image, tx, cia402} }

    ghost predicate Valid()
      reads Repr()
    {
      && tx.Length == CYCLIC_BUF && tx != domain.image && domain.image.Length <= MAX_IMAGE && cia402.Valid()
      && txLen <= tx.Length
    }

    ghost function Model(): Engine
      reads this, domain, domain.image
    {
      Engine(domain.image[..], domain.lastWkc, slaves, refRingPos, phase, outstanding, expectedIndex, goodCycles,
             totalCycles, appended, opCursor, opCtrl, monToggle, monCursor, dcDiff, dcDiffMax, dcValid)
    }

    ghost function Ranges(): seq<(nat, nat)> { domain.inputRanges }

    constructor (fmmus: seq<FmmuCfg>, imageSize: nat, pins: seq<PinCfg>, stations: seq<(word, word)>, refRingPos: word)
      ensures Valid() && fresh(Repr())
      ensures Model() == Start(if imageSize < MAX_IMAGE then imageSize else MAX_IMAGE, stations, refRingPos)
      ensures Ranges() == InputRanges(fmmus) && cia402.drives == Cia402.Discover(pins)
    {
      domain := new EcDomain(fmmus, imageSize);
      slaves := seq(|stations|, i requires 0 <= i < |stations| => SlaveRt(stations[i].0, stations[i].1, false));
      this.refRingPos := refRingPos;
      phase, txLen, outstanding, expectedIndex, goodCycles, totalCycles := Priming, 0, false, 0, 0, 0;
      appended, opCursor, opCtrl, monToggle, monCursor := [], 0, true, true, 0;
      dcDiff, dcDiffMax, dcValid := 0, 0, false;
      tx := new byte[CYCLIC_BUF](_ => 0);
      cia402 := new Cia402.Sequencer(pins);
    }

    // ---- Taking a reply ----

    method ApplyOne(a: Applied)
      modifies this`slaves, this`phase, this`dcDiff, this`dcDiffMax, this`dcValid
      ensures Model() == ApplyAction(old(Model()), a)
    {
      match a
      case OpReached(idx) =>
        if idx < |slaves| {
          slaves := slaves[idx := slaves[idx].(reachedOp := true)];
        }
      case Fault => phase := Faulted;
      case Drift(v) =>
        dcDiff, dcValid := v, true;
        if Abs(v) > Abs(dcDiffMax) {
          dcDiffMax := v;
        }
      case Nothing =>
    }

    /** The appended replies decoded in build order. */
    method Decode(frame: seq<byte>, first: nat) returns (actions: seq<Applied>)
      ensures actions == DecodeTail(appended, frame, first)
    {
      actions := [];
      var next := first;
      for k := 0 to |appended|
        invariant actions + DecodeTail(appended[k..], frame, next) == DecodeTail(appended, frame, first)
      {
        if next == 0 {
          return;
        }
        var at := ParseAt(frame, next);
        if at.None? {
          return;
        }
        assert appended[k..][1..] == appended[k + 1..];
        actions := actions + [DecodeAppended(appended[k], at.value.0)];
        next := at.value.1;
      }
    }

    /** Working-counter health and the priming gate. */
    method Assess(wkc: word)
      modifies this`goodCycles, this`phase
      ensures Model() == Gate(old(Model()), wkc)
    {
      if wkc > 0 {
        goodCycles := if goodCycles < 0xFFFF_FFFF then goodCycles + 1 else goodCycles;
      } else {
        goodCycles := 0;
      }
      if phase == Priming && goodCycles >= PRIMING_CYCLES {
        phase := RequestingOp;
      }
    }

    method EnterOp()
      modifies this`phase
      ensures Model() == OpGate(old(Model()))
    {
      if phase == RequestingOp && AllReached(slaves) {
        phase := Operational;
      }
    }

    method Process(frame: seq<byte>)
      requires Valid()
      modifies this, domain, domain.image
      ensures Valid() && Model() == EngineSpec.Process(Ranges(), old(Model()), frame)
      ensures unchanged(`txLen)
    {
      hide ParseAt, DecodeTail, ApplyRanges, ApplyActions, Gate, OpGate;
      var at := ParseAt(frame, FRAME_HEADER);
      if at.None? {
        return;
      }
      var lrw, next := at.value.0, at.value.1;
      ghost var e := Model();
      var actions := Decode(frame, next);
      var _ := domain.ApplyReply(lrw);
      assert Model() == e.(image := ApplyRanges(e.image, Ranges(), lrw.data), lastWkc := lrw.wkc);
      Assess(lrw.wkc);
      ApplyAll(actions);
      EnterOp();
    }

    method ApplyAll(actions: seq<Applied>)
      modifies this`slaves, this`phase, this`dcDiff, this`dcDiffMax, this`dcValid
      ensures Model() == ApplyActions(old(Model()), actions)
    {
      hide ApplyAction;
      for i := 0 to |actions|
        invariant ApplyActions(Model(), actions[i..]) == ApplyActions(old(Model()), actions)
      {
        assert actions[i..][1..] == actions[i + 1..];
        ApplyOne(actions[i]);
      }
    }

    method Receive(dev: Device)
      requires Valid()
      modifies this, domain, domain.image, dev`polls, dev`awaiting, dev`log
      ensures Valid() && unchanged(`txLen)
      ensures Model() == EngineSpec.Receive(Ranges(), old(Model()), old(dev.polls), RX_LEN).0
      ensures dev.polls == EngineSpec.Receive(Ranges(), old(Model()), old(dev.polls), RX_LEN).1
    {
      hide EngineSpec.Process;
      ghost var e, ring := Model(), dev.polls;
      for k := 0 to RX_LEN
        invariant Valid() && unchanged(`txLen) && Model() == e
        invariant EngineSpec.Receive(Ranges(), e, ring, RX_LEN)
          == EngineSpec.Receive(Ranges(), e, dev.polls, RX_LEN - k)
      {
        var p := dev.Poll(CYCLIC_BUF);
        if p == [] {
          return;
        }
        if |p| >= 4 && p[3] == expectedIndex {
          Process(p);
          return;
        }
      }
    }

    method Begin(dev: Device)
      requires Valid()
      modifies this, domain, domain.image, dev`polls, dev`awaiting, dev`log
      ensures Valid() && unchanged(`txLen)
      ensures (Model(), dev.polls) == BeginTick(Ranges(), old(Model()), old(dev.polls))
    {
      hide EngineSpec.Receive;
      totalCycles := (totalCycles + 1) % 0x1_0000_0000;
      if outstanding {
        Receive(dev);
        outstanding := false;
      }
    }

    // ---- Building the next frame ----

    /** `tx` starts with the frame of `ds`, `txLen` bytes long. */
    ghost predicate Laid(ds: seq<Dgram>)
      reads this`txLen, tx
    {
      ds != [] && Fits(ds) && Frame(ds) <= tx[..] && txLen == |Frame(ds)|
    }

    method AppendOne(ghost ds: seq<Dgram>, index: byte, cmd: byte, adp: word, ado: word, payload: seq<byte>)
      requires Valid() && Laid(ds) && FRAME_HEADER + Region(ds) + DGRAM_HEADER + |payload| + DGRAM_FOOTER <= CYCLIC_BUF
      modifies this`txLen, tx
      ensures var ds' := ds + [Dgram(cmd, index, adp, ado, payload, 0)];
        Laid(ds') && Region(ds') == Region(ds) + DGRAM_HEADER + |payload| + DGRAM_FOOTER
    {
      ghost var d := Dgram(cmd, index, adp, ado, payload, 0);
      txLen := Append(tx, ds, index, cmd, adp, ado, payload);
      RegionConcat(ds, [d]);
      assert Region([d]) == d.Size();
    }

    /** On to the next slave still short of OP. */
    method WalkCursor()
      modifies this`opCursor, this`opCtrl
      ensures opCursor == SkipReached(slaves, old(opCursor))
      ensures opCtrl == (old(opCtrl) || opCursor > old(opCursor))
    {
      while opCursor < |slaves| && slaves[opCursor].reachedOp
        invariant old(opCursor) <= opCursor && SkipReached(slaves, opCursor) == SkipReached(slaves, old(opCursor))
        invariant opCtrl == (old(opCtrl) || opCursor > old(opCursor))
      {
        opCursor, opCtrl := opCursor + 1, true;
      }
    }

    method AppendOpRequest(ghost ds: seq<Dgram>, index: byte) returns (next: byte)
      requires Valid() && appended == [] && Laid(ds) && FRAME_HEADER + Region(ds) <= CYCLIC_BUF - 50
      modifies this`txLen, this`opCursor, this`opCtrl, this`appended, tx
      ensures Valid()
      ensures var b := BuildOpRequest(old(Model()), index);
        Model() == b.e && next == b.index && Laid(ds + b.dgs)
    {
      hide Laid, Region, SkipReached;
      assert ds + [] == ds;
      ghost var e := Model();
      WalkCursor();
      if opCursor >= |slaves| {
        return index;
      }
      var station := slaves[opCursor].station;
      if opCtrl {
        AppendOne(ds, index, FPWR, station, AL_CONTROL, [OP, 0]);
        appended := [Control];
      } else {
        AppendOne(ds, index, FPRD, station, AL_STATUS, Zeros(2));
        appended := [Status(opCursor)];
      }
      opCtrl := !opCtrl;
      next := NextIndex(index);
    }

    method AppendMonitor(ghost ds: seq<Dgram>, index: byte) returns (next: byte)
      requires Valid() && appended == [] && Laid(ds) && FRAME_HEADER + Region(ds) <= CYCLIC_BUF - 50
      modifies this`txLen, this`monToggle, this`monCursor, this`appended, tx
      ensures Valid()
      ensures var b := BuildMonitor(old(Model()), index);
        Model() == b.e && next == b.index && Laid(ds + b.dgs)
    {
      hide BuildMonitor, Laid, Region;
      if |slaves| <= 1 {
        next := AppendDrift(ds, index);
      } else {
        next := AppendPair(ds, index);
      }
    }

    /** Time distribution from the reference, and a look at one follower. */
    method AppendPair(ghost ds: seq<Dgram>, index: byte) returns (next: byte)
      requires Valid() && appended == [] && |slaves| > 1 && Laid(ds) && FRAME_HEADER + Region(ds) <= CYCLIC_BUF - 50
      modifies this`txLen, this`monToggle, this`monCursor, this`appended, tx
      ensures Valid()
      ensures var b := BuildMonitor(old(Model()), index);
        Model() == b.e && next == b.index && Laid(ds + b.dgs)
    {
      hide Laid, Region, FollowerStation, NextIndex;
      ghost var armw := Dgram(ARMW, index, AutoincAdp(refRingPos), DC_SYS_TIME, Zeros(8), 0);
      AppendOne(ds, index, ARMW, AutoincAdp(refRingPos), DC_SYS_TIME, Zeros(8));
      appended := [DcArmw];
      AppendTelemetry(ds, armw, NextIndex(index));
      monToggle := !monToggle;
      next := NextIndex(NextIndex(index));
    }

    /** At most one slave, which is its own reference. */
    method AppendDrift(ghost ds: seq<Dgram>, index: byte) returns (next: byte)
      requires Valid() && appended == [] && |slaves| <= 1 && Laid(ds) && FRAME_HEADER + Region(ds) <= CYCLIC_BUF - 50
      modifies this`txLen, this`appended, tx
      ensures Valid()
      ensures var b := BuildMonitor(old(Model()), index);
        Model() == b.e && next == b.index && Laid(ds + b.dgs)
    {
      hide Laid, Region, FollowerStation;
      assert ds + [] == ds;
      next := index;
      if slaves != [] {
        AppendOne(ds, index, FPRD, slaves[0].station, DC_SYS_TIME_DIFF, Zeros(4));
        appended, next := [DcDiff], NextIndex(index);
      }
    }

    /** The drift read or the AL poll that follows the time distribution. */
    method AppendTelemetry(ghost ds: seq<Dgram>, ghost armw: Dgram, ti: byte)
      requires Valid() && Laid(ds + [armw]) && FRAME_HEADER + Region(ds + [armw]) <= CYCLIC_BUF - 20 && |slaves| > 1
      modifies this`txLen, this`monCursor, this`appended, tx
      ensures Valid()
      ensures appended == old(appended) + [if monToggle then DcDiff else AlPoll]
      ensures monCursor == if monToggle then old(monCursor) else (old(monCursor) + 1) % |slaves|
      ensures Laid(ds + [armw, if monToggle then Read(ti, FollowerStation(slaves, refRingPos), DC_SYS_TIME_DIFF, 4)
                               else Read(ti, slaves[monCursor].station, AL_STATUS, 2)])
    {
      hide Laid, Region, FollowerStation;
      if monToggle {
        var station := FollowerStation(slaves, refRingPos);
        AppendOne(ds + [armw], ti, FPRD, station, DC_SYS_TIME_DIFF, Zeros(4));
        assert ds + [armw] + [Read(ti, station, DC_SYS_TIME_DIFF, 4)]
          == ds + [armw, Read(ti, station, DC_SYS_TIME_DIFF, 4)];
        appended := appended + [DcDiff];
      } else {
        monCursor := (monCursor + 1) % |slaves|;
        var station := slaves[monCursor].station;
        AppendOne(ds + [armw], ti, FPRD, station, AL_STATUS, Zeros(2));
        assert ds + [armw] + [Read(ti, station, AL_STATUS, 2)] == ds + [armw, Read(ti, station, AL_STATUS, 2)];
        appended := appended + [AlPoll];
      }
    }

    /** Lay the LRW and this phase's tail into `tx`. */
    method BuildFrame(index: byte) returns (next: byte)
      requires Valid()
      modifies this`txLen, this`expectedIndex, this`opCursor, this`opCtrl, this`monToggle, this`monCursor,
        this`appended, tx
      ensures Valid()
      ensures var b := BuildTail(old(Model()).(expectedIndex := index, appended := []), NextIndex(index));
        Model() == b.e && next == b.index && Laid([LrwOf(old(domain.image[..]), index)] + b.dgs)
    {
      ghost var lrw := LrwOf(domain.image[..], index);
      ghost var e := Model();
      txLen := domain.BuildLrw(tx, index);
      expectedIndex, appended := index, [];
      assert Region([lrw]) == lrw.Size();
      assert Laid([lrw]) && [lrw] + [] == [lrw];
      assert Model() == e.(expectedIndex := index, appended := []);
      hide BuildOpRequest, BuildMonitor, Frame;
      next := NextIndex(index);
      if phase == RequestingOp {
        next := AppendOpRequest([lrw], next);
      } else if phase == Operational {
        next := AppendMonitor([lrw], next);
      }
    }

    method SendFrame(dev: Device, index: byte) returns (next: byte)
      requires Valid()
      modifies this, tx, dev
      ensures Valid() && dev.polls == old(dev.polls)
      ensures var ok := |dev.sent| > |old(dev.sent)|;
        var b := Send(old(Model()), index, ok);
        && Model() == b.e && next == b.index
        && dev.sent == if ok then old(dev.sent) + [Frame(b.dgs)] else old(dev.sent)
    {
      hide BuildTail, Frame;
      ghost var e := Model();
      next := BuildFrame(index);
      ghost var b := BuildTail(e.(expectedIndex := index, appended := []), NextIndex(index));
      assert tx[..txLen] == Frame([LrwOf(e.image, index)] + b.dgs);
      outstanding := dev.Send(tx[..txLen], [LrwOf(e.image, index)] + b.dgs);
      assert Model() == b.e.(outstanding := outstanding);
    }

    /** One cycle: take the reply of the last frame, send the next. */
    method Tick(dev: Device, index: byte) returns (next: byte)
      requires Valid()
      modifies Repr(), dev
      ensures Valid()
      ensures var ok := |dev.sent| > |old(dev.sent)|;
        var b := EngineSpec.Tick(Ranges(), old(Model()), index, old(dev.polls), ok);
        && Model() == b.e && next == b.index
        && dev.sent == if ok then old(dev.sent) + [Frame(b.dgs)] else old(dev.sent)
    {
      Begin(dev);
      hide BeginTick, Send, Frame;
      next := SendFrame(dev, index);
    }

    // ---- With the host in the loop ----

    ghost function RigOf(host: HB.Bridge): SafeState.Rig {
      SafeState.Rig(host.layout, Ranges(), cia402.drives, domain.expectedWkc)
    }

    /** Sequence the drives; the last word on every controlword before the frame is built. */
    method ApplyDriveControl(host: HB.Bridge, timeout: bool, underrun: bool, ghost m: SafeState.Midcycle)
      requires Valid() && host.Valid() && Repr() !! host.Repr()
      requires forall d <- cia402.drives :: d.sw.bitLen <= 64
      requires m == SafeState.Midcycle(m.e, domain.image[..], host.Model(), timeout, underrun) && m.e.phase == phase
      modifies domain.image, cia402`frHigh
      ensures Valid()
      ensures Model() == old(Model()).(image := SafeState.Controlled(RigOf(host), old(cia402.frHigh), m))
      ensures cia402.frHigh == SafeState.Levels(RigOf(host), old(cia402.frHigh), m)
    {
      hide Cia402.StepImage, Cia402.StepLevels;
      if !host.outValid || cia402.drives == [] {
        return;
      }
      var quickStop := host.QuickStop() || timeout || underrun || phase == Faulted;
      var cmd := Cia402.DriveCommand(host.Enable(), host.FaultReset(), quickStop);
      cia402.Step(domain.image, cmd);
    }

    method ReplyStatus(timeout: bool, underrun: bool, ghost g: SafeState.Rig) returns (st: HB.ReplyStatus)
      requires Valid() && forall d <- cia402.drives :: d.sw.bitLen <= 64
      requires g.drives == cia402.drives && g.expectedWkc == domain.expectedWkc
      ensures st == SafeState.StatusOf(g, Model(), timeout, underrun)
    {
      hide Cia402.HasFault, Cia402.Status;
      var code: byte := match phase case Priming => 0 case RequestingOp => 1 case Operational => 2 case Faulted => 3;
      var drive := cia402.AnyFault(domain.image);
      assert drive == SafeState.AnyFault(domain.image[..], cia402.drives);
      var faults := 0;
      if phase == Faulted { faults := faults + 1; }
      if drive { faults := faults + 2; }
      if timeout { faults := faults + 4; }
      if underrun { faults := faults + 8; }
      st := HB.ReplyStatus(domain.lastWkc > 0, code, if domain.lastWkc < 255 then domain.lastWkc else 255,
        if domain.expectedWkc < 255 then domain.expectedWkc else 255, totalCycles, faults, timeout);
    }

    /** Heartbeat, staged outputs and this cycle's motion sample. */
    method TakeOutputs(host: HB.Bridge) returns (timeout: bool, underrun: bool)
      requires Valid() && host.Valid() && Repr() !! host.Repr()
      modifies domain.image, host.Repr()
      ensures Valid() && host.Valid()
      ensures var h := HB.TickWatchdog(old(host.Model()));
        && Model() == old(Model()).(image := HB.OutputImage(host.layout, h, old(domain.image[..]), totalCycles))
        && host.Model() == HB.AfterOutputs(host.layout, h, totalCycles)
        && timeout == (h.stall >= SafeState.HOST_WDOG_LIMIT) && underrun == HB.Underrun(host.layout, host.Model())
    {
      hide HB.OutputImage, HB.AfterOutputs, HB.TickWatchdog;
      var stall := host.Watchdog();
      timeout := stall >= SafeState.HOST_WDOG_LIMIT;
      host.Apply(domain.image, totalCycles);
      underrun := host.MotionUnderrun();
    }

    /** Everything before the frame is built, with the host in the loop. */
    method BeforeSend(dev: Device, host: HB.Bridge, ghost s: SafeState.System) returns (timeout: bool, underrun: bool)
      requires Valid() && host.Valid() && Repr() !! host.Repr()
      requires forall d <- cia402.drives :: d.sw.bitLen <= 64
      requires s == SafeState.System(Model(), cia402.frHigh, host.Model(), s.index)
      modifies Repr(), host.Repr(), dev`polls, dev`awaiting, dev`log
      ensures Valid() && host.Valid()
      ensures var m := SafeState.Middle(RigOf(host), s, old(dev.polls));
        && Model() == m.e.(image := SafeState.Controlled(RigOf(host), s.fr, m))
        && cia402.frHigh == SafeState.Levels(RigOf(host), s.fr, m)
        && host.Model() == m.h && timeout == m.timeout && underrun == m.underrun
    {
      hide BeginTick, HB.OutputImage, HB.AfterOutputs, HB.TickWatchdog, HB.Underrun, SafeState.Controlled,
        SafeState.Levels;
      Begin(dev);
      ghost var e := Model();
      assert host.Model() == s.h && cia402.frHigh == s.fr;
      timeout, underrun := TakeOutputs(host);
      ghost var m := SafeState.Midcycle(e, domain.image[..], host.Model(), timeout, underrun);
      ApplyDriveControl(host, timeout, underrun, m);
    }

    /** One cycle with the host bridge in the loop. */
    method TickWithHost(dev: Device, index: byte, host: HB.Bridge) returns (next: byte)
      requires Valid() && host.Valid() && Repr() !! host.Repr() && dev !in Repr() + host.Repr()
      requires forall d <- cia402.drives :: d.sw.bitLen <= 64
      modifies Repr(), host.Repr(), dev
      ensures Valid() && host.Valid()
      ensures var ok := |dev.sent| > |old(dev.sent)|;
        var s := SafeState.System(old(Model()), old(cia402.frHigh), old(host.Model()), index);
        var (s', dgs) := SafeState.HostTick(RigOf(host), s, old(dev.polls), ok);
        && SafeState.System(Model(), cia402.frHigh, host.Model(), next) == s'
        && dev.sent == if ok then old(dev.sent) + [Frame(dgs)] else old(dev.sent)
    {
      hide SafeState.Middle, SafeState.Controlled, SafeState.Levels, Send, Frame, SafeState.StatusOf, HB.BuildReply;
      ghost var s := SafeState.System(Model(), cia402.frHigh, host.Model(), index);
      var timeout, underrun := BeforeSend(dev, host, s);
      next := SendAndReply(dev, index, host, timeout, underrun);
    }

    /** Send this cycle's frame, then stage the reply the host will read. */
    method SendAndReply(dev: Device, index: byte, host: HB.Bridge, timeout: bool, underrun: bool) returns (next: byte)
      requires Valid() && host.Valid() && Repr() !! host.Repr() && dev !in Repr() + host.Repr()
      requires forall d <- cia402.drives :: d.sw.bitLen <= 64
      modifies this, tx, host.Repr(), dev
      ensures Valid() && host.Valid() && cia402.frHigh == old(cia402.frHigh)
      ensures var ok := |dev.sent| > |old(dev.sent)|;
        var b := Send(old(Model()), index, ok);
        && Model() == b.e && next == b.index
        && dev.sent == (if ok then old(dev.sent) + [Frame(b.dgs)] else old(dev.sent))
        && host.Model() == HB.BuildReply(host.layout, old(host.Model()), b.e.image,
             SafeState.StatusOf(RigOf(host), b.e, timeout, underrun))
    {
      hide Send, Frame, SafeState.StatusOf, HB.BuildReply;
      next := SendFrame(dev, index);
      var st := ReplyStatus(timeout, underrun, RigOf(host));
      host.StageReply(domain.image, st);
    }
  }
}
