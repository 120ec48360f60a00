/** One cycle with the host bridge in the loop (src/ethercat/cyclic.rs:280-378), and the safe
    state it guarantees over every interleaving of host frames and cycles. */
module SafeState {
  import opened Bytes
  import opened Config
  import opened Datagram
  import opened Domain
  import opened ProcessData
  import Cia402
  import opened Device
  import opened EngineSpec
  import HB = HostBridge
  import EngineRuns
  import LrwRing
  import Motion = MotionBuffer

  const HOST_WDOG_LIMIT: nat := 20

  /** What the build fixes: frame layout, input ranges, drives, expected working counter. */
  datatype Rig = Rig(layout: HB.Layout, ranges: seq<(nat, nat)>, drives: seq<Cia402.Binding>, expectedWkc: word)

  datatype System = System(e: Engine, fr: seq<bool>, h: HB.Host, index: byte)

  // ---- One cycle ----

  /** Engine and host at the point where the drives are about to be commanded. */
  datatype Midcycle = Midcycle(e: Engine, image: seq<byte>, h: HB.Host, timeout: bool, underrun: bool)

  function Middle(g: Rig, s: System, ring: seq<RxFrame>): Midcycle
    requires |s.h.stagedOut| == g.layout.outBytes
  {
    var e := BeginTick(g.ranges, s.e, ring).0;
    var h := HB.TickWatchdog(s.h);
    var h' := HB.AfterOutputs(g.layout, h, e.totalCycles);
    Midcycle(e, HB.OutputImage(g.layout, h, e.image, e.totalCycles), h', h.stall >= HOST_WDOG_LIMIT,
      HB.Underrun(g.layout, h'))
  }

  /** Any of the four reasons to stop the drives. */
  predicate Triggered(m: Midcycle) {
    HB.QuickStopRequested(m.h) || m.timeout || m.underrun || m.e.phase == Faulted
  }

  function CommandOf(m: Midcycle): Cia402.DriveCommand {
    Cia402.DriveCommand(HB.EnableRequested(m.h), HB.FaultResetRequested(m.h), Triggered(m))
  }

  /** Drives are sequenced only with a host attached and drives on the bus. */
  predicate Driven(g: Rig, m: Midcycle) { m.h.outValid && g.drives != [] }

  function Controlled(g: Rig, fr: seq<bool>, m: Midcycle): (image: seq<byte>)
    requires |fr| == |g.drives|
    ensures |image| == |m.image|
  {
    if Driven(g, m) then Cia402.StepImage(m.image, g.drives, CommandOf(m), fr) else m.image
  }

  function Levels(g: Rig, fr: seq<bool>, m: Midcycle): (fr': seq<bool>)
    requires |fr| == |g.drives|
    ensures |fr'| == |g.drives|
  {
    if Driven(g, m) then Cia402.StepLevels(m.image, g.drives, CommandOf(m), fr) else fr
  }

  function PhaseCode(p: Phase): byte {
    match p
    case Priming => 0
    case RequestingOp => 1
    case Operational => 2
    case Faulted => 3
  }

  predicate AnyFault(image: seq<byte>, drives: seq<Cia402.Binding>) {
    exists d <- drives :: Cia402.HasFault(Cia402.Status(image, d))
  }

  function StatusOf(g: Rig, e: Engine, timeout: bool, underrun: bool): HB.ReplyStatus {
    var faults := (if e.phase == Faulted then 1 else 0) + (if AnyFault(e.image, g.drives) then 2 else 0)
      + (if timeout then 4 else 0) + (if underrun then 8 else 0);
    HB.ReplyStatus(e.lastWkc > 0, PhaseCode(e.phase), if e.lastWkc < 255 then e.lastWkc else 255,
      if g.expectedWkc < 255 then g.expectedWkc else 255, e.totalCycles, faults, timeout)
  }

  /** `tick_with_host`: the system after one cycle and the datagrams it sends. */
  function HostTick(g: Rig, s: System, ring: seq<RxFrame>, accepted: bool): (System, seq<Dgram>)
    requires SizesOk(g, s)
  {
    var m := Middle(g, s, ring);
    var b := Send(m.e.(image := Controlled(g, s.fr, m)), s.index, accepted);
    (System(b.e, Levels(g, s.fr, m), HB.BuildReply(g.layout, m.h, b.e.image, StatusOf(g, b.e, m.timeout, m.underrun)),
      b.index), b.dgs)
  }

  predicate SizesOk(g: Rig, s: System) {
    && |s.h.stagedOut| == g.layout.outBytes && |s.h.stagedIn| == g.layout.FrameLen() && |s.fr| == |g.drives|
  }

  /** The drives' pins are placed and disjoint, each controlword at least a byte wide. */
  ghost predicate RigOk(g: Rig, n: nat) {
    && Cia402.DrivesOk(g.drives, n)
    && forall d <- g.drives :: 8 <= d.cw.bitLen
  }

  // ---- What the host is told ----

  predicate BitOf(b: byte, n: nat)
    requires n > 0
  {
    (b / n) % 2 == 1
  }

  /** The reply staged by a cycle: link, operational, fault and host timeout in the bits of byte
      3, the host's own counter and the firmware's after it, the cycle number, the phase by
      number, and in byte 15 the four reasons to stop: bus fault, drive fault, host timeout and
      underrun. */
  lemma ReplyTells(g: Rig, s: System, ring: seq<RxFrame>, accepted: bool)
    requires SizesOk(g, s)
    ensures var (m, s') := (Middle(g, s, ring), HostTick(g, s, ring, accepted).0);
      var f := s'.h.stagedIn;
      && |f| >= 18 && f[0] == 0xEC && f[1] == 0xA7 && f[2] == 1
      && (BitOf(f[3], 1) <==> s'.e.lastWkc > 0) && (BitOf(f[3], 2) <==> s'.e.phase == Operational)
      && (BitOf(f[3], 4) <==> s'.e.phase == Faulted) && (BitOf(f[3], 8) <==> m.timeout)
      && FromLe16(f[4], f[5]) == m.h.hostSeq && FromLe16(f[6], f[7]) == (s.h.teensyWdog + 1) % 0x1_0000
      && FromLe32(f[8..12]) == s'.e.totalCycles
      && f[14] == (match s'.e.phase case Priming => 0 case RequestingOp => 1 case Operational => 2 case Faulted => 3)
      && (BitOf(f[15], 1) <==> s'.e.phase == Faulted) && (BitOf(f[15], 2) <==> AnyFault(s'.e.image, g.drives))
      && (BitOf(f[15], 4) <==> m.timeout) && (BitOf(f[15], 8) <==> m.underrun)
  {
    hide Middle, Send, Controlled, AnyFault, Levels;
    var m := Middle(g, s, ring);
    var e := Send(m.e.(image := Controlled(g, s.fr, m)), s.index, accepted).e;
    KeepsCounter(g, s, ring);
    StatusBits(g, e, m.timeout, m.underrun);
    hide StatusOf;
    ReplyLayout(g.layout, m.h, e.image, StatusOf(g, e, m.timeout, m.underrun));
  }

  lemma KeepsCounter(g: Rig, s: System, ring: seq<RxFrame>)
    requires SizesOk(g, s)
    ensures Middle(g, s, ring).h.teensyWdog == s.h.teensyWdog && Middle(g, s, ring).h.stagedIn == s.h.stagedIn
  {
    hide BeginTick, Motion.Pop;
  }

  lemma StatusBits(g: Rig, e: Engine, timeout: bool, underrun: bool)
    ensures var st := StatusOf(g, e, timeout, underrun);
      && (st.linkUp <==> e.lastWkc > 0) && st.hostTimeout == timeout && st.cycleIndex == e.totalCycles
      && st.phase == (match e.phase case Priming => 0 case RequestingOp => 1 case Operational => 2 case Faulted => 3)
      && (BitOf(st.faultFlags, 1) <==> e.phase == Faulted) && (BitOf(st.faultFlags, 2) <==> AnyFault(e.image, g.drives))
      && (BitOf(st.faultFlags, 4) <==> timeout) && (BitOf(st.faultFlags, 8) <==> underrun)
  {
    hide AnyFault;
  }

  lemma ReplyLayout(l: HB.Layout, h: HB.Host, image: seq<byte>, st: HB.ReplyStatus)
    requires |h.stagedIn| == l.FrameLen()
    ensures var f := HB.BuildReply(l, h, image, st).stagedIn;
      && |f| >= 18 && f[0] == 0xEC && f[1] == 0xA7 && f[2] == 1
      && (BitOf(f[3], 1) <==> st.linkUp) && (BitOf(f[3], 2) <==> st.phase == 2)
      && (BitOf(f[3], 4) <==> st.phase == 3) && (BitOf(f[3], 8) <==> st.hostTimeout)
      && FromLe16(f[4], f[5]) == h.hostSeq && FromLe16(f[6], f[7]) == (h.teensyWdog + 1) % 0x1_0000
      && FromLe32(f[8..12]) == st.cycleIndex && f[14] == st.phase && f[15] == st.faultFlags
  {
    var wdog: word := (h.teensyWdog + 1) % 0x1_0000;
    var m, f := HB.ReplyHeader(h, wdog, st), HB.BuildReply(l, h, image, st).stagedIn;
    HeaderLayout(h, wdog, st);
    StagedHead(l, h, image, st);
    hide HB.ReplyHeader, HB.BuildReply, BitOf, FromLe16, FromLe32;
    HeadOf(f, m);
  }

  lemma StagedHead(l: HB.Layout, h: HB.Host, image: seq<byte>, st: HB.ReplyStatus)
    requires |h.stagedIn| == l.FrameLen()
    ensures var f := HB.BuildReply(l, h, image, st).stagedIn;
      |f| >= 18 && f[..18] == HB.ReplyHeader(h, (h.teensyWdog + 1) % 0x1_0000, st)
  {
    hide HB.ReplyHeader, HB.Crc16Word, HB.Inputs;
  }

  lemma HeadOf(f: seq<byte>, m: seq<byte>)
    requires |m| == 18 <= |f| && f[..18] == m
    ensures f[8..12] == m[8..12] && forall k {:trigger f[k]} {:trigger m[k]} :: 0 <= k < 18 ==> f[k] == m[k]
  {
  }

  lemma HeaderLayout(h: HB.Host, wdog: word, st: HB.ReplyStatus)
    ensures var m := HB.ReplyHeader(h, wdog, st);
      && m[0] == 0xEC && m[1] == 0xA7 && m[2] == 1
      && (BitOf(m[3], 1) <==> st.linkUp) && (BitOf(m[3], 2) <==> st.phase == 2)
      && (BitOf(m[3], 4) <==> st.phase == 3) && (BitOf(m[3], 8) <==> st.hostTimeout)
      && FromLe16(m[4], m[5]) == h.hostSeq && FromLe16(m[6], m[7]) == wdog
      && FromLe32(m[8..12]) == st.cycleIndex && m[14] == st.phase && m[15] == st.faultFlags
  {
    var m := HB.ReplyHeader(h, wdog, st);
    Le32RoundTrip(st.cycleIndex);
    assert m[8..12] == Le32(st.cycleIndex);
    assert m[4] == h.hostSeq % 0x100 && m[5] == h.hostSeq / 0x100 && m[6] == wdog % 0x100 && m[7] == wdog / 0x100;
  }

  // ---- What reaches the wire ----

  lemma SentImage(g: Rig, s: System, ring: seq<RxFrame>, accepted: bool)
    requires SizesOk(g, s)
    ensures var (s', dgs) := HostTick(g, s, ring, accepted);
      |dgs| > 0 && dgs[0] == LrwOf(Controlled(g, s.fr, Middle(g, s, ring)), s.index)
  {
    hide BuildTail, Controlled, Middle, StatusOf;
  }

  lemma Fits16(w: word, n: nat)
    requires w <= 0x80 && n >= 8
    ensures w % Pow2(n) == w
  {
    Pow2Eight();
    if n > 8 {
      Pow2Monotone(8, n);
    }
    SmallMod(w, Pow2(n));
  }

  lemma Pow2Eight()
    ensures Pow2(8) == 256
  {
    assert Pow2(4) == 16;
  }

  /** The word on the wire for drive `i` is the sequencer's, computed from the drive's own
      status and this cycle's command, whatever controlword the host staged. */
  lemma WireWord(g: Rig, s: System, ring: seq<RxFrame>, accepted: bool, i: nat)
    requires SizesOk(g, s) && i < |g.drives| && s.h.outValid
    requires RigOk(g, |Middle(g, s, ring).image|)
    ensures var m, d := Middle(g, s, ring), g.drives[i];
      && m.h.outValid
      && |HostTick(g, s, ring, accepted).1| > 0
      && Cia402.Commanded(HostTick(g, s, ring, accepted).1[0].payload, d)
        == Cia402.NextControlword(Cia402.Status(m.image, d), CommandOf(m), s.fr[i]).0
  {
    var m, d := Middle(g, s, ring), g.drives[i];
    SentImage(g, s, ring, accepted);
    HostStays(g, s, ring);
    hide *;
    DrivenWord(g, s, m, i);
  }

  lemma DrivenWord(g: Rig, s: System, m: Midcycle, i: nat)
    requires |s.fr| == |g.drives| && i < |g.drives| && m.h.outValid && RigOk(g, |m.image|)
    ensures Cia402.Commanded(Controlled(g, s.fr, m), g.drives[i])
      == Cia402.NextControlword(Cia402.Status(m.image, g.drives[i]), CommandOf(m), s.fr[i]).0
  {
    assert g.drives[i] in g.drives;
    hide Cia402.DrivesOk, Cia402.Commanded, Cia402.NextControlword, Cia402.Status, CommandOf, Cia402.StepImage;
    CommandedExactly(m.image, g.drives, CommandOf(m), s.fr, i);
  }

  lemma CommandedExactly(image: seq<byte>, ds: seq<Cia402.Binding>, cmd: Cia402.DriveCommand, fr: seq<bool>, i: nat)
    requires |fr| == |ds| && i < |ds| && Cia402.DrivesOk(ds, |image|) && 8 <= ds[i].cw.bitLen
    ensures Cia402.Commanded(Cia402.StepImage(image, ds, cmd, fr), ds[i])
      == Cia402.NextControlword(Cia402.Status(image, ds[i]), cmd, fr[i]).0
  {
    Cia402.StepCommands(image, ds, cmd, fr, i);
    var sw := Cia402.Status(image, ds[i]);
    SmallWords(sw, cmd, fr[i]);
    Fits16(Cia402.NextControlword(sw, cmd, fr[i]).0, ds[i].cw.bitLen);
    hide *;
    assert Cia402.Command(image, ds[i], cmd, fr[i]) == Cia402.NextControlword(sw, cmd, fr[i]) by {
      CommandIs(image, ds[i], cmd, fr[i]);
    }
  }

  lemma CommandIs(image: seq<byte>, d: Cia402.Binding, cmd: Cia402.DriveCommand, frHigh: bool)
    ensures Cia402.Command(image, d, cmd, frHigh) == Cia402.NextControlword(Cia402.Status(image, d), cmd, frHigh)
  {
    hide Cia402.NextControlword, Cia402.Status;
  }

  lemma SmallWords(sw: word, cmd: Cia402.DriveCommand, frHigh: bool)
    ensures Cia402.NextControlword(sw, cmd, frHigh).0 <= 0x80
  {
  }

  lemma HostStays(g: Rig, s: System, ring: seq<RxFrame>)
    requires |s.h.stagedOut| == g.layout.outBytes
    ensures Middle(g, s, ring).h.outValid == s.h.outValid
    ensures Middle(g, s, ring).timeout <==> HB.TickWatchdog(s.h).stall >= HOST_WDOG_LIMIT
    ensures Middle(g, s, ring).h.stagedOut == s.h.stagedOut && Middle(g, s, ring).h.stagedIn == s.h.stagedIn
    ensures Middle(g, s, ring).h.hostWdog == s.h.hostWdog && Middle(g, s, ring).h.flags == s.h.flags
  {
    hide BeginTick, HB.OutputImage;
  }

  /** What the four reasons are: bit 2 of the host's flags, twenty cycles without a heartbeat, an
      underrun of a ring that is streamed to, or a faulted bus. */
  lemma TriggeredIff(g: Rig, s: System, ring: seq<RxFrame>)
    requires |s.h.stagedOut| == g.layout.outBytes
    ensures var m := Middle(g, s, ring);
      && (Triggered(m) <==> (m.h.flags / 4) % 2 == 1 || m.timeout || m.underrun || m.e.phase == Faulted)
      && (m.timeout <==> HB.TickWatchdog(s.h).stall >= 20)
      && (m.underrun <==> g.layout.SampleLen() > 0 && m.h.motion.underrun)
  {
    hide BeginTick, HB.OutputImage, HB.AfterOutputs, HB.TickWatchdog;
  }

  /** Safe state: on a quick-stop request, a stalled heartbeat, a motion underrun or a faulted
      bus, no drive is sent Enable Operation, and every enabled healthy drive is sent Quick
      Stop. */
  lemma SafeStateOnWire(g: Rig, s: System, ring: seq<RxFrame>, accepted: bool, i: nat)
    requires SizesOk(g, s) && i < |g.drives| && s.h.outValid
    requires RigOk(g, |Middle(g, s, ring).image|)
    requires var m := Middle(g, s, ring);
      (m.h.flags / 4) % 2 == 1 || m.timeout || m.underrun || m.e.phase == Faulted
    ensures var d, dgs := g.drives[i], HostTick(g, s, ring, accepted).1;
      var sw := Cia402.Status(Middle(g, s, ring).image, d);
      && |dgs| > 0 && Cia402.Commanded(dgs[0].payload, d) in {0x0000, 0x0002, 0x0006, 0x0007, 0x0080}
      && (Cia402.Reports(Cia402.OperationEnabled, sw) ==>
        Cia402.Commanded(dgs[0].payload, d) == 0x0002)
  {
    hide HostTick, Middle;
    TriggeredIff(g, s, ring);
    WireWord(g, s, ring, accepted, i);
    var m := Middle(g, s, ring);
    Cia402.QuickStopCommands(Cia402.Status(m.image, g.drives[i]), CommandOf(m), s.fr[i]);
    hide Cia402.Commanded;
  }

  /** Enable Operation goes out exactly when the host asks for it, nothing forces a stop, and
      the drive itself reports Switched On or Operation Enabled without a fault. */
  lemma EnableOnWireIff(g: Rig, s: System, ring: seq<RxFrame>, accepted: bool, i: nat)
    requires SizesOk(g, s) && i < |g.drives| && s.h.outValid
    requires RigOk(g, |Middle(g, s, ring).image|)
    ensures var m, d, dgs := Middle(g, s, ring), g.drives[i], HostTick(g, s, ring, accepted).1;
      var sw := Cia402.Status(m.image, d);
      |dgs| > 0 && (Cia402.Commanded(dgs[0].payload, d) == 0x000F <==>
        && m.h.flags % 2 == 1 && (m.h.flags / 4) % 2 == 0 && !m.timeout && !m.underrun && m.e.phase != Faulted
        && (Cia402.Reports(Cia402.SwitchedOn, sw) || Cia402.Reports(Cia402.OperationEnabled, sw)))
  {
    hide HostTick, Middle;
    TriggeredIff(g, s, ring);
    WireWord(g, s, ring, accepted, i);
    var m := Middle(g, s, ring);
    Cia402.EnableOnlyWhenAsked(Cia402.Status(m.image, g.drives[i]), CommandOf(m), s.fr[i]);
    hide Cia402.Commanded, Cia402.NextControlword;
  }

  /** The fault-reset word goes out exactly when the drive reports a fault, the host asks for the
      reset, and the bit was low in the word before. */
  lemma ResetOnWireIff(g: Rig, s: System, ring: seq<RxFrame>, accepted: bool, i: nat)
    requires SizesOk(g, s) && i < |g.drives| && s.h.outValid
    requires RigOk(g, |Middle(g, s, ring).image|)
    ensures var m, d, dgs := Middle(g, s, ring), g.drives[i], HostTick(g, s, ring, accepted).1;
      |dgs| > 0 && (Cia402.Commanded(dgs[0].payload, d) == 0x0080 <==>
        (Cia402.Status(m.image, d) / 8) % 2 == 1 && (m.h.flags / 2) % 2 == 1 && !s.fr[i])
  {
    hide HostTick, Middle;
    WireWord(g, s, ring, accepted, i);
    var m := Middle(g, s, ring);
    Cia402.ResetOnlyWhenAsked(Cia402.Status(m.image, g.drives[i]), CommandOf(m), s.fr[i]);
    hide Cia402.Commanded, Cia402.NextControlword;
  }

  // ---- The status the drives are judged by ----

  /** Statuswords lie past the outputs, and no motion field reaches them. */
  predicate StatusIsInput(g: Rig) {
    && (forall d <- g.drives :: d.sw.halType != Bit && g.layout.outBytes <= d.sw.byteOffset)
    && (forall f <- g.layout.fields :: f.imageOff + f.len <= g.layout.outBytes)
  }

  /** Controlwords lie among the outputs. */
  predicate ControlIsOutput(g: Rig) {
    forall d <- g.drives :: d.cw.halType != Bit && d.cw.byteOffset + BytesOf(d.cw) <= g.layout.outBytes
  }

  lemma {:induction false} FieldsKeepTail(image: seq<byte>, payload: seq<byte>, fields: seq<StreamField>, from: nat)
    requires from <= |image| && forall f <- fields :: f.imageOff + f.len <= from
    ensures HB.CopyFields(image, payload, fields)[from..] == image[from..]
    decreases |fields|
  {
    if fields == [] {
    } else {
      assert fields[0] in fields;
      assert HB.CopyField(image, payload, fields[0])[from..] == image[from..];
      FieldsKeepTail(HB.CopyField(image, payload, fields[0]), payload, fields[1..], from);
    }
  }

  /** Host outputs touch nothing from `outBytes` on. */
  lemma OutputsKeepTail(l: HB.Layout, h: HB.Host, image: seq<byte>, cycle: dword)
    requires |h.stagedOut| == l.outBytes <= |image| && forall f <- l.fields :: f.imageOff + f.len <= l.outBytes
    ensures HB.OutputImage(l, h, image, cycle)[l.outBytes..] == image[l.outBytes..]
  {
    assert HB.Immediate(l, h, image)[l.outBytes..] == image[l.outBytes..];
    match Motion.Pop(h.motion, cycle).1
    case None =>
    case Some(payload) => FieldsKeepTail(HB.Immediate(l, h, image), payload, l.fields, l.outBytes);
  }

  /** Nothing the host stages touches the inputs. */
  lemma HostKeepsInputs(g: Rig, s: System, ring: seq<RxFrame>)
    requires |s.h.stagedOut| == g.layout.outBytes <= |Middle(g, s, ring).e.image| && StatusIsInput(g)
    ensures Middle(g, s, ring).image[g.layout.outBytes..] == Middle(g, s, ring).e.image[g.layout.outBytes..]
  {
    var m := Middle(g, s, ring);
    OutputsKeepTail(g.layout, HB.TickWatchdog(s.h), m.e.image, m.e.totalCycles);
    hide HB.OutputImage, BeginTick;
  }

  lemma SameWindow(x: seq<byte>, y: seq<byte>, from: nat, off: nat, n: nat)
    requires from <= |x| == |y| && x[from..] == y[from..] && from <= off
    ensures Window(x, off, n) == Window(y, off, n)
  {
    forall j | from <= j < |x|
      ensures x[j] == y[j]
    {
      assert x[j] == x[from..][j - from];
    }
  }

  // ---- Runs: host frames and cycles in any order ----

  datatype Event = HostFrame(mosi: seq<byte>) | Cycle(ring: seq<RxFrame>, accepted: bool)

  function Next(g: Rig, s: System, ev: Event): System
    requires SizesOk(g, s)
  {
    match ev
    case HostFrame(mosi) => s.(h := HB.Ingest(g.layout, s.h, mosi))
    case Cycle(ring, accepted) => HostTick(g, s, ring, accepted).0
  }

  /** Every event keeps the sizes, the image length and an attached host. */
  lemma NextKeeps(g: Rig, s: System, ev: Event)
    requires SizesOk(g, s)
    ensures var s' := Next(g, s, ev);
      SizesOk(g, s') && |s'.e.image| == |s.e.image| && (s.h.outValid ==> s'.h.outValid)
  {
    match ev
    case HostFrame(mosi) =>
      IngestKeeps(g.layout, s.h, mosi);
      hide HB.Ingest;
    case Cycle(ring, accepted) =>
      TickKeeps(g, s, ring, accepted);
      hide HostTick;
  }

  lemma IngestKeeps(l: HB.Layout, h: HB.Host, mosi: seq<byte>)
    requires |h.stagedOut| == l.outBytes
    ensures var h' := HB.Ingest(l, h, mosi);
      && |h'.stagedOut| == l.outBytes && h'.stagedIn == h.stagedIn && (h.outValid ==> h'.outValid)
      && h'.lastSeenWdog == h.lastSeenWdog && h'.stall == h.stall
      && h'.hostWdog == if HB.Accepts(l, mosi) then FromLe16(mosi[6], mosi[7]) else h.hostWdog
  {
    hide HB.PushSamples, HB.SampleCount, HB.Crc16Word;
  }

  lemma TickKeeps(g: Rig, s: System, ring: seq<RxFrame>, accepted: bool)
    requires SizesOk(g, s)
    ensures var s' := HostTick(g, s, ring, accepted).0;
      && SizesOk(g, s') && |s'.e.image| == |s.e.image| && s'.h.outValid == s.h.outValid
      && s'.h.hostWdog == s.h.hostWdog
      && s'.h.stall == HB.TickWatchdog(s.h).stall && s'.h.lastSeenWdog == HB.TickWatchdog(s.h).lastSeenWdog
  {
    MiddleKeeps(g, s, ring);
    var m := Middle(g, s, ring);
    SendKeepsImage(m.e.(image := Controlled(g, s.fr, m)), s.index, accepted);
    hide Middle, Controlled, Send, StatusOf, HB.ReplyFrame, Levels, HB.TickWatchdog;
  }

  lemma MiddleKeeps(g: Rig, s: System, ring: seq<RxFrame>)
    requires |s.h.stagedOut| == g.layout.outBytes
    ensures var m := Middle(g, s, ring);
      && |m.image| == |s.e.image|
      && m.h == s.h.(lastSeenWdog := HB.TickWatchdog(s.h).lastSeenWdog, stall := HB.TickWatchdog(s.h).stall,
        motion := m.h.motion)
  {
    BeginKeepsLength(g.ranges, s.e, ring);
    hide BeginTick, HB.OutputImage, Motion.Pop;
  }

  lemma BeginKeepsLength(ranges: seq<(nat, nat)>, e: Engine, ring: seq<RxFrame>)
    ensures |BeginTick(ranges, e, ring).0.image| == |e.image|
  {
    hide Receive, Process, EngineRuns.Taken;
    var e1 := e.(totalCycles := (e.totalCycles + 1) % 0x1_0000_0000);
    EngineRuns.ReceiveIsProcess(ranges, e1, ring, RX_LEN);
    match EngineRuns.Taken(e.expectedIndex, ring, RX_LEN)
    case None =>
    case Some(p) => ProcessKeepsLength(ranges, e1, p);
  }

  lemma ProcessKeepsLength(ranges: seq<(nat, nat)>, e: Engine, frame: seq<byte>)
    ensures |Process(ranges, e, frame).image| == |e.image|
  {
    match ParseAt(frame, FRAME_HEADER)
    case None =>
    case Some((lrw, next)) =>
      EngineRuns.ActionsCore(Gate(e.(image := ApplyRanges(e.image, ranges, lrw.data), lastWkc := lrw.wkc), lrw.wkc),
        DecodeTail(e.appended, frame, next));
      hide ApplyActions, DecodeTail;
  }

  lemma SendKeepsImage(e: Engine, index: byte, accepted: bool)
    ensures Send(e, index, accepted).e.image == e.image
  {
    hide SkipReached, FollowerStation, EngineSpec.Read;
  }

  function Play(g: Rig, s: System, evs: seq<Event>): (s': System)
    requires SizesOk(g, s)
    ensures SizesOk(g, s')
    decreases |evs|
  {
    if evs == [] then s
    else
      NextKeeps(g, s, evs[0]);
      Play(g, Next(g, s, evs[0]), evs[1..])
  }

  function Cycles(evs: seq<Event>): nat {
    if evs == [] then 0 else (if evs[0].Cycle? then 1 else 0) + Cycles(evs[1..])
  }

  /** Every host frame that gets through carries the heartbeat `w`. */
  predicate HeartbeatHeld(l: HB.Layout, evs: seq<Event>, w: word) {
    forall ev <- evs :: ev.HostFrame? && HB.Accepts(l, ev.mosi) ==> FromLe16(ev.mosi[6], ev.mosi[7]) == w
  }

  lemma {:induction false} PlayKeeps(g: Rig, s: System, evs: seq<Event>)
    requires SizesOk(g, s)
    ensures var s' := Play(g, s, evs);
      |s'.e.image| == |s.e.image| && (s.h.outValid ==> s'.h.outValid)
    decreases |evs|
  {
    if evs == [] {
    } else {
      NextKeeps(g, s, evs[0]);
      hide Next, SizesOk;
      PlayKeeps(g, Next(g, s, evs[0]), evs[1..]);
    }
  }

  /** Ticks counted since the heartbeat last moved, capped at the limit. */
  function Stalled(h: HB.Host): nat {
    if h.hostWdog != h.lastSeenWdog then 0 else if h.stall + 1 < HOST_WDOG_LIMIT then h.stall + 1 else HOST_WDOG_LIMIT
  }

  lemma NextStalls(g: Rig, s: System, ev: Event)
    requires SizesOk(g, s) && s.h.outValid && HeartbeatHeld(g.layout, [ev], s.h.hostWdog)
    ensures var s' := Next(g, s, ev);
      && s'.h.hostWdog == s.h.hostWdog
      && Stalled(s'.h) == if ev.Cycle? && Stalled(s.h) < HOST_WDOG_LIMIT then Stalled(s.h) + 1 else Stalled(s.h)
  {
    match ev
    case HostFrame(mosi) =>
      assert ev in [ev];
      IngestKeeps(g.layout, s.h, mosi);
      hide HB.Ingest;
    case Cycle(ring, accepted) =>
      TickKeeps(g, s, ring, accepted);
      hide HostTick;
  }

  lemma {:induction false} PlayStalls(g: Rig, s: System, evs: seq<Event>)
    requires SizesOk(g, s) && s.h.outValid && HeartbeatHeld(g.layout, evs, s.h.hostWdog)
    ensures var s', k := Play(g, s, evs), Stalled(s.h) + Cycles(evs);
      s'.h.hostWdog == s.h.hostWdog && Stalled(s'.h) == if k < 20 then k else 20
    decreases |evs|
  {
    if evs == [] {
    } else {
      assert evs[0] in evs;
      NextStalls(g, s, evs[0]);
      NextKeeps(g, s, evs[0]);
      hide Next, SizesOk, Stalled;
      PlayStalls(g, Next(g, s, evs[0]), evs[1..]);
    }
  }

  /** A host that has stopped: however its frames and the cycles interleave, once the
      heartbeat has stood still for twenty cycles no later cycle enables any drive, and the
      enabled healthy ones are stopped. */
  lemma StalledHostIsStopped(g: Rig, s: System, evs: seq<Event>, ring: seq<RxFrame>, accepted: bool, i: nat)
    requires SizesOk(g, s) && s.h.outValid && RigOk(g, |s.e.image|) && i < |g.drives|
    requires HeartbeatHeld(g.layout, evs, s.h.hostWdog) && Cycles(evs) >= 20
    ensures var s', d := Play(g, s, evs), g.drives[i];
      var dgs, sw := HostTick(g, s', ring, accepted).1, Cia402.Status(Middle(g, s', ring).image, d);
      && |dgs| > 0 && Cia402.Commanded(dgs[0].payload, d) in {0x0000, 0x0002, 0x0006, 0x0007, 0x0080}
      && (Cia402.Reports(Cia402.OperationEnabled, sw) ==>
        Cia402.Commanded(dgs[0].payload, d) == 0x0002)
  {
    var s' := Play(g, s, evs);
    PlayKeeps(g, s, evs);
    PlayStalls(g, s, evs);
    MiddleKeeps(g, s', ring);
    HostStays(g, s', ring);
    hide Middle, HostTick, Play;
    SafeStateOnWire(g, s', ring, accepted, i);
  }

  // ---- Refused frames ----

  /** The frames the cycles of a run send, in order. */
  function Sent(g: Rig, s: System, evs: seq<Event>): seq<seq<Dgram>>
    requires SizesOk(g, s)
    decreases |evs|
  {
    if evs == [] then []
    else
      NextKeeps(g, s, evs[0]);
      (if evs[0].Cycle? then [HostTick(g, s, evs[0].ring, evs[0].accepted).1]
        else []) + Sent(g, Next(g, s, evs[0]), evs[1..])
  }

  /** Alike but for the count of refused frames. */
  predicate Alike(s: System, t: System) { t == s.(h := s.h.(crcErrs := t.h.crcErrs)) }

  lemma AlikeOnward(g: Rig, s: System, t: System, ev: Event)
    requires SizesOk(g, s) && Alike(s, t)
    ensures SizesOk(g, t) && Alike(Next(g, s, ev), Next(g, t, ev))
    ensures ev.Cycle? ==> HostTick(g, t, ev.ring, ev.accepted).1 == HostTick(g, s, ev.ring, ev.accepted).1
  {
    match ev
    case HostFrame(mosi) =>
      IngestAlike(g.layout, s.h, t.h, mosi);
      hide HB.Ingest;
    case Cycle(ring, accepted) =>
      MiddleAlike(g, s, t, ring);
      var m, n := Middle(g, s, ring), Middle(g, t, ring);
      hide Middle;
      assert Controlled(g, t.fr, n) == Controlled(g, s.fr, m) && Levels(g, t.fr, n) == Levels(g, s.fr, m) by {
        CommandAlike(g, s.fr, m, n);
      }
      hide Controlled, Levels, Send, StatusOf, HB.ReplyFrame;
      ReplyAlike(g.layout, m.h, n.h);
  }

  lemma IngestAlike(l: HB.Layout, h: HB.Host, k: HB.Host, mosi: seq<byte>)
    requires |h.stagedOut| == l.outBytes && k == h.(crcErrs := k.crcErrs)
    ensures HB.Ingest(l, k, mosi) == HB.Ingest(l, h, mosi).(crcErrs := HB.Ingest(l, k, mosi).crcErrs)
  {
    hide HB.PushSamples, HB.SampleCount, HB.Accepts;
  }

  lemma MiddleAlike(g: Rig, s: System, t: System, ring: seq<RxFrame>)
    requires |s.h.stagedOut| == g.layout.outBytes && Alike(s, t)
    ensures var m, n := Middle(g, s, ring), Middle(g, t, ring); n == m.(h := m.h.(crcErrs := n.h.crcErrs))
  {
    hide BeginTick, Motion.Pop, HB.CopyFields;
  }

  lemma CommandAlike(g: Rig, fr: seq<bool>, m: Midcycle, n: Midcycle)
    requires |fr| == |g.drives| && n == m.(h := m.h.(crcErrs := n.h.crcErrs))
    ensures Controlled(g, fr, n) == Controlled(g, fr, m) && Levels(g, fr, n) == Levels(g, fr, m)
  {
    hide Cia402.StepImage, Cia402.StepLevels;
  }

  lemma ReplyAlike(l: HB.Layout, h: HB.Host, k: HB.Host)
    requires |h.stagedIn| == l.FrameLen() && k == h.(crcErrs := k.crcErrs)
    ensures forall image, st {:trigger HB.BuildReply(l, k, image, st)} ::
      HB.BuildReply(l, k, image, st) == HB.BuildReply(l, h, image, st).(crcErrs := k.crcErrs)
  {
    forall image, st
      ensures HB.BuildReply(l, k, image, st) == HB.BuildReply(l, h, image, st).(crcErrs := k.crcErrs)
    {
      hide HB.Crc16Word, HB.Inputs, HB.StatusFlags;
      assert HB.ReplyHeader(k, (k.teensyWdog + 1) % 0x1_0000, st)
        == HB.ReplyHeader(h, (h.teensyWdog + 1) % 0x1_0000, st);
    }
  }

  lemma {:induction false} AlikeSent(g: Rig, s: System, t: System, evs: seq<Event>)
    requires SizesOk(g, s) && SizesOk(g, t) && Alike(s, t)
    ensures Sent(g, t, evs) == Sent(g, s, evs) && Alike(Play(g, s, evs), Play(g, t, evs))
    decreases |evs|
  {
    if evs == [] {
    } else {
      NextKeeps(g, s, evs[0]);
      NextKeeps(g, t, evs[0]);
      AlikeOnward(g, s, t, evs[0]);
      hide Next, HostTick, SizesOk;
      AlikeSent(g, Next(g, s, evs[0]), Next(g, t, evs[0]), evs[1..]);
    }
  }

  /** A frame that is refused is not felt: wherever it comes between frames and cycles, every
      frame sent is the one that would have been sent without it, and nothing but the count of
      refused frames differs at the end. */
  lemma {:induction false} RefusedUnseen(g: Rig, s: System, before: seq<Event>, mosi: seq<byte>, after: seq<Event>)
    requires SizesOk(g, s) && !HB.Accepts(g.layout, mosi)
    ensures Sent(g, s, before + [HostFrame(mosi)] + after) == Sent(g, s, before + after)
    ensures Alike(Play(g, s, before + after), Play(g, s, before + [HostFrame(mosi)] + after))
    decreases |before|
  {
    var with, without := before + [HostFrame(mosi)] + after, before + after;
    if before == [] {
      assert with[1..] == after && with[0] == HostFrame(mosi) && without == after;
      NextKeeps(g, s, with[0]);
      hide HB.Accepts;
      assert Next(g, s, with[0]) == s.(h := s.h.(crcErrs := HB.Bump(s.h.crcErrs)));
      hide Next, SizesOk;
      AlikeSent(g, s, Next(g, s, with[0]), after);
    } else {
      NextKeeps(g, s, before[0]);
      assert with[1..] == before[1..] + [HostFrame(mosi)] + after && without[1..] == before[1..] + after;
      hide Next, HostTick, SizesOk, HB.Accepts;
      RefusedUnseen(g, Next(g, s, before[0]), before[1..], mosi, after);
    }
  }

  // ---- The status over whole runs ----

  /** The process data a frame carries. */
  function LrwData(frame: seq<byte>): Option<seq<byte>> {
    var d := ParseAt(frame, FRAME_HEADER);
    if d.None? then None else Some(d.value.0.data)
  }

  /** The process data of the reply this cycle takes, if it takes one. */
  function Delivered(e: Engine, ring: seq<RxFrame>): Option<seq<byte>> {
    if !e.outstanding then None
    else match EngineRuns.Taken(e.expectedIndex, ring, RX_LEN)
      case None => None
      case Some(p) => LrwData(p)
  }

  /** An image that only the bus writes: each reply taken lays its input ranges over it. */
  function Laid(g: Rig, bus: seq<byte>, e: Engine, ring: seq<RxFrame>): (r: seq<byte>)
    ensures |r| == |bus|
  {
    match Delivered(e, ring)
    case None => bus
    case Some(data) => ApplyRanges(bus, g.ranges, data)
  }

  /** That image after a run. */
  function BusSide(g: Rig, s: System, bus: seq<byte>, evs: seq<Event>): (r: seq<byte>)
    requires SizesOk(g, s)
    ensures |r| == |bus|
    decreases |evs|
  {
    if evs == [] then bus
    else
      NextKeeps(g, s, evs[0]);
      BusSide(g, Next(g, s, evs[0]), if evs[0].Cycle? then Laid(g, bus, s.e, evs[0].ring) else bus, evs[1..])
  }

  /** The same inputs. */
  predicate SameInputs(g: Rig, x: seq<byte>, y: seq<byte>) {
    |x| == |y| && g.layout.outBytes <= |x| && x[g.layout.outBytes..] == y[g.layout.outBytes..]
  }

  lemma ReceptionIsLaid(g: Rig, e: Engine, ring: seq<RxFrame>)
    ensures BeginTick(g.ranges, e, ring).0.image == Laid(g, e.image, e, ring)
  {
    hide Receive, Process, EngineRuns.Taken, ApplyRanges;
    var e1 := e.(totalCycles := (e.totalCycles + 1) % 0x1_0000_0000);
    EngineRuns.ReceiveIsProcess(g.ranges, e1, ring, RX_LEN);
    if e.outstanding {
      match EngineRuns.Taken(e.expectedIndex, ring, RX_LEN)
      case None =>
      case Some(p) => ProcessImage(g.ranges, e1, p);
    }
  }

  lemma ProcessImage(ranges: seq<(nat, nat)>, e: Engine, frame: seq<byte>)
    ensures Process(ranges, e, frame).image
      == if LrwData(frame).None? then e.image else ApplyRanges(e.image, ranges, LrwData(frame).value)
  {
    match ParseAt(frame, FRAME_HEADER)
    case None =>
    case Some((lrw, next)) =>
      EngineRuns.ActionsCore(Gate(e.(image := ApplyRanges(e.image, ranges, lrw.data), lastWkc := lrw.wkc), lrw.wkc),
        DecodeTail(e.appended, frame, next));
      hide ApplyActions, DecodeTail, ApplyRanges;
  }

  /** A reply lays the same inputs over the same inputs. */
  lemma {:induction false} LaidAlike(g: Rig, x: seq<byte>, y: seq<byte>, rs: seq<(nat, nat)>, data: seq<byte>)
    requires SameInputs(g, x, y)
    ensures SameInputs(g, ApplyRanges(x, rs, data), ApplyRanges(y, rs, data))
    decreases |rs|
  {
    if rs == [] {
    } else {
      RangeAlike(g, x, y, rs[0], data);
      hide ApplyRange, SameInputs;
      LaidAlike(g, ApplyRange(x, rs[0], data), ApplyRange(y, rs[0], data), rs[1..], data);
    }
  }

  lemma RangeAlike(g: Rig, x: seq<byte>, y: seq<byte>, r: (nat, nat), data: seq<byte>)
    requires SameInputs(g, x, y)
    ensures SameInputs(g, ApplyRange(x, r, data), ApplyRange(y, r, data))
  {
    var o, a, b := g.layout.outBytes, ApplyRange(x, r, data), ApplyRange(y, r, data);
    forall i | o <= i < |x|
      ensures a[i] == b[i]
    {
      assert x[i] == x[o..][i - o] && y[i] == y[o..][i - o];
    }
    assert a[o..] == b[o..];
  }

  /** The sequencer writes only among the outputs. */
  lemma {:induction false} WalkKeepsInputs(g: Rig, image: seq<byte>, ds: seq<Cia402.Binding>, cmd: Cia402.DriveCommand,
      fr: seq<bool>)
    requires |fr| == |ds| && g.layout.outBytes <= |image|
    requires forall d <- ds :: d.cw.halType != Bit && d.cw.byteOffset + BytesOf(d.cw) <= g.layout.outBytes
    ensures SameInputs(g, image, Cia402.StepImage(image, ds, cmd, fr))
    decreases |ds|
  {
    if ds == [] {
    } else {
      hide Cia402.Command;
      var next := Cia402.StepOne(image, ds[0], cmd, fr[0]);
      assert ds[0] in ds && forall d <- ds[1..] :: d in ds;
      assert SameInputs(g, image, next);
      hide Cia402.StepOne;
      WalkKeepsInputs(g, next, ds[1..], cmd, fr[1..]);
    }
  }

  lemma TickInputs(g: Rig, s: System, ring: seq<RxFrame>, accepted: bool, bus: seq<byte>)
    requires SizesOk(g, s) && StatusIsInput(g) && ControlIsOutput(g) && SameInputs(g, s.e.image, bus)
    ensures SameInputs(g, Middle(g, s, ring).image, Laid(g, bus, s.e, ring))
    ensures SameInputs(g, HostTick(g, s, ring, accepted).0.e.image, Laid(g, bus, s.e, ring))
  {
    var m := Middle(g, s, ring);
    MiddleKeeps(g, s, ring);
    BeginKeepsLength(g.ranges, s.e, ring);
    ReceptionIsLaid(g, s.e, ring);
    assert SameInputs(g, Laid(g, s.e.image, s.e, ring), Laid(g, bus, s.e, ring)) by {
      if Delivered(s.e, ring).Some? {
        LaidAlike(g, s.e.image, bus, g.ranges, Delivered(s.e, ring).value);
      }
    }
    HostKeepsInputs(g, s, ring);
    hide Laid, Middle;
    assert SameInputs(g, m.image, Controlled(g, s.fr, m)) by {
      if Driven(g, m) {
        WalkKeepsInputs(g, m.image, g.drives, CommandOf(m), s.fr);
      }
    }
    SendKeepsImage(m.e.(image := Controlled(g, s.fr, m)), s.index, accepted);
    hide Send, Controlled, Levels, StatusOf;
  }

  lemma {:induction false} RunInputs(g: Rig, s: System, bus: seq<byte>, evs: seq<Event>)
    requires SizesOk(g, s) && StatusIsInput(g) && ControlIsOutput(g) && SameInputs(g, s.e.image, bus)
    ensures SameInputs(g, Play(g, s, evs).e.image, BusSide(g, s, bus, evs))
    decreases |evs|
  {
    if evs == [] {
    } else {
      NextKeeps(g, s, evs[0]);
      match evs[0] {
        case HostFrame(mosi) =>
          hide SizesOk, StatusIsInput, ControlIsOutput, SameInputs, HB.Ingest;
          RunInputs(g, Next(g, s, evs[0]), bus, evs[1..]);
        case Cycle(ring, accepted) =>
          TickInputs(g, s, ring, accepted, bus);
          hide SizesOk, StatusIsInput, ControlIsOutput, SameInputs, HostTick, Laid;
          RunInputs(g, Next(g, s, evs[0]), Laid(g, bus, s.e, ring), evs[1..]);
      }
    }
  }

  /** The status a drive is judged by is the bus's, never the host's: after any run of host
      frames and cycles it is what the replies taken so far, this cycle's included, have laid
      into the input ranges. */
  lemma StatusFromTheBus(g: Rig, s: System, evs: seq<Event>, ring: seq<RxFrame>, i: nat)
    requires SizesOk(g, s) && StatusIsInput(g) && ControlIsOutput(g) && g.layout.outBytes <= |s.e.image|
      && i < |g.drives|
    ensures var s' := Play(g, s, evs);
      Cia402.Status(Middle(g, s', ring).image, g.drives[i])
      == Cia402.Status(Laid(g, BusSide(g, s, s.e.image, evs), s'.e, ring), g.drives[i])
  {
    hide Middle, Laid, Play, BusSide, StatusIsInput, ControlIsOutput, SameInputs, Cia402.Status;
    assert SameInputs(g, s.e.image, s.e.image) by {
      Itself(g, s.e.image);
    }
    var s' := Play(g, s, evs);
    RunInputs(g, s, s.e.image, evs);
    TickInputs(g, s', ring, true, BusSide(g, s, s.e.image, evs));
    SameStatus(g, Middle(g, s', ring).image, Laid(g, BusSide(g, s, s.e.image, evs), s'.e, ring), i);
  }

  lemma Itself(g: Rig, x: seq<byte>)
    requires g.layout.outBytes <= |x|
    ensures SameInputs(g, x, x)
  {
  }

  lemma SameStatus(g: Rig, x: seq<byte>, y: seq<byte>, i: nat)
    requires SameInputs(g, x, y) && StatusIsInput(g) && i < |g.drives|
    ensures Cia402.Status(x, g.drives[i]) == Cia402.Status(y, g.drives[i])
  {
    var p := g.drives[i].sw;
    assert g.drives[i] in g.drives;
    SameWindow(x, y, g.layout.outBytes, p.byteOffset, BytesOf(p));
    hide SameInputs, Window;
  }

  /** And the last reply decides: where a range covers the statusword, it reads as in the reply
      itself. */
  lemma LastReplyDecides(g: Rig, bus: seq<byte>, data: seq<byte>, d: Cia402.Binding, lo: nat, size: nat)
    requires |data| == |bus| && d.sw.halType != Bit && d.sw.byteOffset + BytesOf(d.sw) <= |bus|
      && (lo, size) in g.ranges
    requires lo <= d.sw.byteOffset && d.sw.byteOffset + BytesOf(d.sw) <= lo + size
    ensures Cia402.Status(ApplyRanges(bus, g.ranges, data), d) == Cia402.Status(data, d)
  {
    var a, p := ApplyRanges(bus, g.ranges, data), d.sw;
    forall j | p.byteOffset <= j < p.byteOffset + BytesOf(p)
      ensures a[j] == data[j]
    {
      assert LrwRing.Covered(j, g.ranges);
      LrwRing.ApplyTakes(bus, g.ranges, data, j);
    }
    hide ApplyRanges;
    assert Window(a, p.byteOffset, BytesOf(p)) == Window(data, p.byteOffset, BytesOf(p));
  }
}
