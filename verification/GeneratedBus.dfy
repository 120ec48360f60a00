/** What a bus that the generator resolves gives the firmware and the Pi
    (scripts/generate_ethercat_config.py:163-289): for a sound bus description, everything that
    the pins, the drives, the two frames and the motion stream rest on; and where a description
    that is accepted does not give it. */
module GeneratedBus {
  import opened Bytes
  import opened Config
  import opened ProcessData
  import opened Layout
  import opened LayoutProofs
  import Cia402
  import Datagram
  import Device
  import Domain
  import EngineSpec
  import HB = HostBridge
  import LrwRing
  import Motion = MotionBuffer
  import MotionLink
  import Pi = PiBridge
  import PiMotion
  import SafeState

  // ---- Sound descriptions ----

  /** An entry with a pin is a single bit, or whole bytes on a byte boundary, at most 32 bits. */
  predicate EntryOk(e: Entry, acc: nat) {
    e.pin.Some? ==> if e.halType == Bit then e.bits == 1 else acc % 8 == 0 && e.bits % 8 == 0 && 0 < e.bits <= 32
  }

  predicate SmOk(sm: Sm) { forall i :: 0 <= i < |sm| ==> EntryOk(sm[i], Bits(sm[..i])) }

  predicate SlaveOk(s: SlaveIn) { WellFormed(s) && (forall sm <- s.outSms :: SmOk(sm))
      && (forall sm <- s.inSms :: SmOk(sm)) }

  predicate BusOk(ss: seq<SlaveIn>) { forall s <- ss :: SlaveOk(s) }

  // ---- Pins ----

  predicate Shaped(p: PinCfg) {
    && 0 < p.bitLen <= 32
    && if p.halType == Bit then p.bitLen == 1 && p.bitPos < 8 else p.bitPos == 0 && p.bitLen % 8 == 0
  }

  predicate AllShaped(ps: seq<PinCfg>) { forall p <- ps :: Shaped(p) }

  lemma {:induction false} SmShaped(sm: Sm, k: nat, cursor: nat, dir: Direction)
    requires k <= |sm| && SmOk(sm)
    ensures AllShaped(SmPins(sm[..k], cursor, dir))
  {
    hide Bits, SmPins;
    if k == 0 {
      NoSmPins(cursor, dir);
      assert sm[..0] == [];
    } else {
      SmShaped(sm, k - 1, cursor, dir);
      SmSnoc(sm, k - 1, cursor, dir, Layout.Motion.Motion([], 0));
      assert EntryOk(sm[k - 1], Bits(sm[..k - 1]));
    }
  }

  lemma NoSmPins(cursor: nat, dir: Direction)
    ensures SmPins([], cursor, dir) == []
  {
  }

  lemma OneSmShaped(sms: seq<Sm>, cursor: nat, dir: Direction)
    requires |sms| <= 1 && forall sm <- sms :: SmOk(sm)
    ensures AllShaped(SmsPins(sms, cursor, dir))
  {
    hide SmPins, SmOk;
    if |sms| == 1 {
      assert sms[..0] == [] && SmsPins(sms, cursor, dir) == [] + SmPins(sms[0], cursor, dir);
      assert sms[0][..|sms[0]|] == sms[0];
      SmShaped(sms[0], |sms[0]|, cursor, dir);
    }
  }

  lemma {:induction false} PinsShaped(ss: seq<SlaveIn>, k: nat, total: nat)
    requires k <= |ss| && BusOk(ss)
    ensures AllShaped(AllPins(ss[..k], total))
  {
    hide AllPins, SmsPins, OutBase, InBase, Shaped, SmOk, SmsBits;
    if k == 0 {
      NoPinsAtAll(ss, total);
    } else {
      PinsShaped(ss, k - 1, total);
      AllSnoc(ss, k - 1, total);
      var s := ss[k - 1];
      assert SlaveOk(s);
      OneSmShaped(s.outSms, OutBase(ss[..k - 1]), Output);
      OneSmShaped(s.inSms, total + InBase(ss[..k - 1]), Input);
    }
  }

  lemma NoPinsAtAll(ss: seq<SlaveIn>, total: nat)
    ensures AllPins(ss[..0], total) == []
  {
  }

  lemma TableApart(ss: seq<SlaveIn>)
    requires BusOk(ss)
    ensures AllApart(AllPins(ss, OutBase(ss))) && AllShaped(AllPins(ss, OutBase(ss)))
    ensures Halves(AllPins(ss, OutBase(ss)), 8 * OutBase(ss), 8 * OutBase(ss), 8 * (OutBase(ss) + InBase(ss)))
  {
    hide AllPins, AllApart, AllShaped, Halves, OutBase, InBase, WellFormed;
    assert ss[..|ss|] == ss;
    assert forall j :: 0 <= j < |ss| ==> SlaveOk(ss[j]);
    PinsShaped(ss, |ss|, OutBase(ss));
    PinsApart(ss, |ss|, OutBase(ss));
    PinsInHalves(ss, |ss|, OutBase(ss));
  }

  /** Every generated pin is one that the firmware's reads and writes handle, inside the image
      and inside its own half, and no two share a bit. */
  lemma GeneratedPinsPlaced(ss: seq<SlaveIn>, cfg: Resolved, p: PinCfg)
    requires BusOk(ss) && IsResolved(ss, cfg) && p in cfg.pins
    ensures Placed(p, cfg.image) && p.bitLen <= 32 && AllApart(cfg.pins)
    ensures if p.dir == Output then Placed(p, cfg.outBytes) else cfg.outBytes <= p.byteOffset
  {
    hide AllPins, AllMotion, OutBase, InBase, AllApart;
    TableApart(ss);
    assert Shaped(p);
  }

  /** The table is one the Pi's and the firmware's frames work with. */
  lemma GeneratedTableOk(ss: seq<SlaveIn>, cfg: Resolved)
    requires BusOk(ss) && IsResolved(ss, cfg)
    ensures Pi.TableOk(cfg.pins, cfg.outBytes)
  {
    hide IsResolved, Placed, Apart;
    forall p | p in cfg.pins
      ensures p.dir == Output ==> Placed(p, cfg.outBytes) && p.bitLen <= 32
      ensures p.dir == Input ==> cfg.outBytes <= p.byteOffset
    {
      GeneratedPinsPlaced(ss, cfg, p);
    }
    if cfg.pins != [] {
      GeneratedPinsPlaced(ss, cfg, cfg.pins[0]);
    }
  }

  // ---- Drives ----

  function LayoutOf(cfg: Resolved): HB.Layout
    requires cfg.outBytes <= cfg.image
  {
    HB.Layout(cfg.outBytes, cfg.image - cfg.outBytes, cfg.maxSamples, cfg.sampleBytes, cfg.fields)
  }

  function RigOf(cfg: Resolved, ranges: seq<(nat, nat)>, expectedWkc: word): SafeState.Rig
    requires cfg.outBytes <= cfg.image
  {
    SafeState.Rig(LayoutOf(cfg), ranges, Cia402.Discover(cfg.pins), expectedWkc)
  }

  lemma ResolvedBase(ss: seq<SlaveIn>, cfg: Resolved)
    requires IsResolved(ss, cfg)
    ensures cfg.outBytes <= cfg.image && cfg.outBytes == OutBase(ss) && cfg.pins == AllPins(ss, OutBase(ss))
  {
  }

  /** Control- and statuswords are words, not single bits. */
  predicate WordsWide(ds: seq<Cia402.Binding>) { forall d <- ds :: d.cw.halType != Bit && d.sw.halType != Bit }

  lemma DrivePins(pins: seq<PinCfg>, ix: seq<nat>, k: nat) returns (j: nat)
    requires Cia402.Found(pins, |pins|, Cia402.Discover(pins), ix) && k < |ix|
    ensures var d := Cia402.Discover(pins)[k];
      ix[k] < |pins| && d.cw == pins[ix[k]] && d.cw.dir == Output && j < |pins| && d.sw == pins[j] && d.sw.dir == Input
  {
    hide Cia402.Discover;
    var d := Cia402.Discover(pins)[k];
    assert Cia402.Paired(pins, ix[k], d);
    var prefix, i: nat :| i < |pins| && d.sw == pins[i] && Cia402.NamesStatus(pins[i], prefix);
    j := i;
  }

  lemma ApartAt(pins: seq<PinCfg>, i: nat, j: nat)
    requires AllApart(pins) && i < |pins| && j < |pins| && i != j
    ensures Apart(pins[i], pins[j])
  {
  }

  /** What the generator cannot see is the type of a drive's words: the drives are those the
      safe-state results speak of exactly if no control- or statusword is a single bit. */
  lemma GeneratedRigIff(ss: seq<SlaveIn>, cfg: Resolved, ranges: seq<(nat, nat)>, wkc: word, n: nat)
    requires BusOk(ss) && IsResolved(ss, cfg) && cfg.outBytes <= cfg.image <= n
    requires forall s <- ss :: SlaveMotionOk(s)
    ensures var g := RigOf(cfg, ranges, wkc);
      SafeState.RigOk(g, n) && SafeState.StatusIsInput(g) && SafeState.ControlIsOutput(g) <==> WordsWide(g.drives)
  {
    hide IsResolved, SlaveMotionOk;
    var ix := Cia402.DiscoverIs(cfg.pins);
    if WordsWide(Cia402.Discover(cfg.pins)) {
      GeneratedDrives(ss, cfg, ix, n);
      FieldsAmongOutputs(ss, cfg);
      hide Cia402.Discover, Cia402.DrivesOk;
    }
  }

  lemma GeneratedDrives(ss: seq<SlaveIn>, cfg: Resolved, ix: seq<nat>, n: nat)
    requires BusOk(ss) && IsResolved(ss, cfg) && cfg.outBytes <= cfg.image <= n
    requires Cia402.Found(cfg.pins, |cfg.pins|, Cia402.Discover(cfg.pins), ix) && WordsWide(Cia402.Discover(cfg.pins))
    ensures Cia402.DrivesOk(Cia402.Discover(cfg.pins), n)
    ensures forall d <- Cia402.Discover(cfg.pins) ::
      && 8 <= d.cw.bitLen && d.cw.byteOffset + BytesOf(d.cw) <= cfg.outBytes && cfg.outBytes <= d.sw.byteOffset
  {
    hide IsResolved, Cia402.Discover, Cia402.Paired, Apart, BusOk;
    var pins, ds := cfg.pins, Cia402.Discover(cfg.pins);
    forall d | d in ds
      ensures Placed(d.cw, n) && Placed(d.sw, n) && 8 <= d.cw.bitLen
      ensures d.cw.byteOffset + BytesOf(d.cw) <= cfg.outBytes && cfg.outBytes <= d.sw.byteOffset
    {
      var k :| 0 <= k < |ds| && ds[k] == d;
      DrivePlaced(ss, cfg, ix, k, n);
    }
    forall d, e | d in ds && e in ds
      ensures Apart(d.cw, e.sw)
    {
      var k :| 0 <= k < |ds| && ds[k] == d;
      var m :| 0 <= m < |ds| && ds[m] == e;
      DrivesApart(ss, cfg, ix, k, m);
    }
    forall k, m | 0 <= k < m < |ds|
      ensures Apart(ds[k].cw, ds[m].cw)
    {
      DrivesApart(ss, cfg, ix, k, m);
    }
  }

  lemma DrivePlaced(ss: seq<SlaveIn>, cfg: Resolved, ix: seq<nat>, k: nat, n: nat)
    requires BusOk(ss) && IsResolved(ss, cfg) && cfg.outBytes <= cfg.image <= n
    requires Cia402.Found(cfg.pins, |cfg.pins|, Cia402.Discover(cfg.pins), ix) && k < |ix|
    requires WordsWide(Cia402.Discover(cfg.pins))
    ensures var d := Cia402.Discover(cfg.pins)[k];
      && Placed(d.cw, n) && Placed(d.sw, n) && 8 <= d.cw.bitLen
      && d.cw.byteOffset + BytesOf(d.cw) <= cfg.outBytes && cfg.outBytes <= d.sw.byteOffset
  {
    hide IsResolved, Cia402.Discover, Cia402.Paired;
    var d := Cia402.Discover(cfg.pins)[k];
    assert d in Cia402.Discover(cfg.pins);
    var j := DrivePins(cfg.pins, ix, k);
    GeneratedPinsPlaced(ss, cfg, d.cw);
    GeneratedPinsPlaced(ss, cfg, d.sw);
  }

  lemma DrivesApart(ss: seq<SlaveIn>, cfg: Resolved, ix: seq<nat>, k: nat, m: nat)
    requires BusOk(ss) && IsResolved(ss, cfg) && k < |ix| && m < |ix|
    requires Cia402.Found(cfg.pins, |cfg.pins|, Cia402.Discover(cfg.pins), ix)
    ensures var ds := Cia402.Discover(cfg.pins);
      Apart(ds[k].cw, ds[m].sw) && (k < m ==> Apart(ds[k].cw, ds[m].cw))
  {
    hide IsResolved, Cia402.Discover, Cia402.Paired, Apart, AllApart;
    var i := DrivePins(cfg.pins, ix, k);
    var j := DrivePins(cfg.pins, ix, m);
    GeneratedPinsPlaced(ss, cfg, cfg.pins[ix[k]]);
    ApartAt(cfg.pins, ix[k], j);
    if k < m {
      ApartAt(cfg.pins, ix[k], ix[m]);
    }
  }

  lemma FieldsAmongOutputs(ss: seq<SlaveIn>, cfg: Resolved)
    requires BusOk(ss) && IsResolved(ss, cfg) && forall s <- ss :: SlaveMotionOk(s)
    ensures forall f <- cfg.fields :: f.imageOff + f.len <= cfg.outBytes && f.sampleOff + f.len <= cfg.sampleBytes
    ensures MotionLink.InOrder(cfg.fields)
  {
    hide AllMotion, OutBase, InBase, WellFormed, SlaveMotionOk, MotionLink.InOrder;
    forall f | f in cfg.fields
      ensures f.imageOff + f.len <= cfg.outBytes && f.sampleOff + f.len <= cfg.sampleBytes
    {
      GeneratedFieldsInOrder(ss, f);
    }
    if cfg.fields == [] {
      EmptyInOrder();
    } else {
      GeneratedFieldsInOrder(ss, cfg.fields[0]);
    }
  }

  lemma EmptyInOrder()
    ensures MotionLink.InOrder([])
  {
  }

  // ---- The safe state of a generated bus ----

  /** Safe state, on any generated bus: under any of the four causes no drive is sent Enable
      Operation, and every enabled healthy one is sent Quick Stop; and Enable Operation goes
      out exactly when it is asked for, nothing forces a stop and the drive is ready. */
  lemma GeneratedSafeState(ss: seq<SlaveIn>, cfg: Resolved, ranges: seq<(nat, nat)>, wkc: word, s: SafeState.System,
      ring: seq<Device.RxFrame>, accepted: bool, i: nat)
    requires BusOk(ss) && IsResolved(ss, cfg) && cfg.outBytes <= cfg.image <= |s.e.image|
    requires (forall x <- ss :: SlaveMotionOk(x)) && WordsWide(Cia402.Discover(cfg.pins))
    requires SafeState.SizesOk(RigOf(cfg, ranges, wkc), s) && i < |Cia402.Discover(cfg.pins)| && s.h.outValid
    ensures var g := RigOf(cfg, ranges, wkc);
      var m, d, dgs := SafeState.Middle(g, s, ring), g.drives[i], SafeState.HostTick(g, s, ring, accepted).1;
      var sw := Cia402.Status(m.image, d);
      && |dgs| > 0
      && ((m.h.flags / 4) % 2 == 1 || m.timeout || m.underrun || m.e.phase == EngineSpec.Phase.Faulted ==>
        && Cia402.Commanded(dgs[0].payload, d) in {0x0000, 0x0002, 0x0006, 0x0007, 0x0080}
        && (Cia402.Reports(Cia402.OperationEnabled, sw) ==>
          Cia402.Commanded(dgs[0].payload, d) == 0x0002))
      && (Cia402.Commanded(dgs[0].payload, d) == 0x000F <==>
        && m.h.flags % 2 == 1 && (m.h.flags / 4) % 2 == 0 && !m.timeout && !m.underrun
        && m.e.phase != EngineSpec.Phase.Faulted
        && (Cia402.Reports(Cia402.SwitchedOn, sw) || Cia402.Reports(Cia402.OperationEnabled, sw)))
  {
    hide IsResolved, BusOk, SafeState.Middle, SafeState.HostTick, SafeState.Triggered, Cia402.Discover, SafeState.RigOk;
    hide Cia402.Commanded, Cia402.Status, Cia402.Reports, WordsWide;
    var g := RigOf(cfg, ranges, wkc);
    GeneratedRigIff(ss, cfg, ranges, wkc, |s.e.image|);
    SafeState.MiddleKeeps(g, s, ring);
    SafeState.EnableOnWireIff(g, s, ring, accepted, i);
    var m := SafeState.Middle(g, s, ring);
    if (m.h.flags / 4) % 2 == 1 || m.timeout || m.underrun || m.e.phase == EngineSpec.Phase.Faulted {
      SafeState.SafeStateOnWire(g, s, ring, accepted, i);
    }
  }

  // ---- The statuswords come from the bus ----

  lemma {:induction false} PinOfSlave(ss: seq<SlaveIn>, n: nat, total: nat, p: PinCfg) returns (k: nat)
    requires n <= |ss| && p in AllPins(ss[..n], total)
    ensures k < n && p in SlavePins(ss[k], OutBase(ss[..k]), total + InBase(ss[..k]))
  {
    hide SlavePins, OutBase, InBase;
    assert n > 0 by {
      NoPinsAtAll(ss, total);
    }
    AllSnoc(ss, n - 1, total);
    if p in AllPins(ss[..n - 1], total) {
      hide AllPins;
      k := PinOfSlave(ss, n - 1, total, p);
    } else {
      k := n - 1;
    }
  }

  /** Every input pin lies in one of the ranges that the domain copies back. */
  lemma InputIsCovered(ss: seq<SlaveIn>, cfg: Resolved, cs: seq<LrwRing.GenCfg>, p: PinCfg) returns (lo: nat, size: nat)
    requires BusOk(ss) && IsResolved(ss, cfg) && Rendered(ss, cs) && |ss| <= MAX_SLAVES
    requires p in cfg.pins && p.dir == Input && p.halType != Bit
    ensures (lo, size) in Domain.InputRanges(LrwRing.AllFmmus(cs))
    ensures lo <= p.byteOffset && p.byteOffset + BytesOf(p) <= lo + size
  {
    hide IsResolved, AllPins, SlavePins, OutBase, InBase, WellFormed, OutSize, InSize, InRegions, Domain.InputRanges,
      LrwRing.AllFmmus;
    GeneratedPinsPlaced(ss, cfg, p);
    ResolvedBase(ss, cfg);
    assert ss[..|ss|] == ss;
    var k := PinOfSlave(ss, |ss|, OutBase(ss), p);
    assert SlaveOk(ss[k]);
    PinsInOwnRegion(ss, k, OutBase(ss[..k]), OutBase(ss) + InBase(ss[..k]));
    InRegion(SlavePins(ss[k], OutBase(ss[..k]), OutBase(ss) + InBase(ss[..k])), p, OutBase(ss[..k]),
      OutBase(ss[..k]) + OutSize(ss[k]), OutBase(ss) + InBase(ss[..k]), OutBase(ss) + InBase(ss[..k]) + InSize(ss[k]));
    lo, size := RangeOfSlave(ss, cs, k);
  }

  lemma InRegion(ps: seq<PinCfg>, p: PinCfg, outLo: nat, outHi: nat, inLo: nat, inHi: nat)
    requires InRegions(ps, outLo, outHi, inLo, inHi) && p in ps && p.dir == Input && p.halType != Bit
    requires p.bitPos == 0 && p.bitLen % 8 == 0
    ensures inLo <= p.byteOffset && p.byteOffset + BytesOf(p) <= inHi
  {
  }

  lemma RangeOfSlave(ss: seq<SlaveIn>, cs: seq<LrwRing.GenCfg>, k: nat) returns (lo: nat, size: nat)
    requires Rendered(ss, cs) && |ss| <= MAX_SLAVES && k < |ss|
    ensures (lo, size) in Domain.InputRanges(LrwRing.AllFmmus(cs))
    ensures lo == OutBase(ss) + InBase(ss[..k]) && size == InSize(ss[k])
  {
    hide OutBase, InBase, InSize, OutSize;
    LrwRing.RangesOf(cs);
    var rs := Domain.InputRanges(LrwRing.AllFmmus(cs));
    assert rs[k] == LrwRing.InRange(cs[k]);
    hide Domain.InputRanges, LrwRing.AllFmmus;
    lo, size := rs[k].0, rs[k].1;
  }

  /** The status each drive is judged by, after any run of host frames and cycles, is the one
      in the reply this cycle took, whatever the host staged; and where this cycle took none,
      what earlier replies left. */
  lemma GeneratedStatus(ss: seq<SlaveIn>, cfg: Resolved, cs: seq<LrwRing.GenCfg>, wkc: word, s: SafeState.System,
      evs: seq<SafeState.Event>, ring: seq<Device.RxFrame>, i: nat)
    requires BusOk(ss) && IsResolved(ss, cfg) && Rendered(ss, cs) && |ss| <= MAX_SLAVES
    requires (forall x <- ss :: SlaveMotionOk(x)) && WordsWide(Cia402.Discover(cfg.pins))
    requires cfg.outBytes <= cfg.image == |s.e.image| && i < |Cia402.Discover(cfg.pins)|
    requires SafeState.SizesOk(RigOf(cfg, Domain.InputRanges(LrwRing.AllFmmus(cs)), wkc), s)
    ensures var g := RigOf(cfg, Domain.InputRanges(LrwRing.AllFmmus(cs)), wkc);
      var s', d := SafeState.Play(g, s, evs), g.drives[i];
      var status := Cia402.Status(SafeState.Middle(g, s', ring).image, d);
      match SafeState.Delivered(s'.e, ring)
      case None => status == Cia402.Status(SafeState.BusSide(g, s, s.e.image, evs), d)
      case Some(data) => |data| == cfg.image ==> status == Cia402.Status(data, d)
  {
    hide IsResolved, BusOk, SafeState.Middle, SafeState.Play, SafeState.BusSide, SafeState.Delivered, Cia402.Discover;
    hide Domain.InputRanges, LrwRing.AllFmmus, Rendered, Cia402.Status, SafeState.RigOk, SafeState.StatusIsInput,
      SafeState.ControlIsOutput;
    hide Domain.ApplyRanges, Cia402.Paired, Placed, SlaveMotionOk;
    var g := RigOf(cfg, Domain.InputRanges(LrwRing.AllFmmus(cs)), wkc);
    var s', d := SafeState.Play(g, s, evs), g.drives[i];
    GeneratedRigIff(ss, cfg, Domain.InputRanges(LrwRing.AllFmmus(cs)), wkc, |s.e.image|);
    SafeState.StatusFromTheBus(g, s, evs, ring, i);
    var ix := Cia402.DiscoverIs(cfg.pins);
    var j := DrivePins(cfg.pins, ix, i);
    assert d in g.drives;
    match SafeState.Delivered(s'.e, ring)
    case None =>
    case Some(data) =>
      if |data| == cfg.image {
        GeneratedPinsPlaced(ss, cfg, d.sw);
        var lo, size := InputIsCovered(ss, cfg, cs, d.sw);
        PlacedEnds(d.sw, cfg.image);
        SafeState.LastReplyDecides(g, SafeState.BusSide(g, s, s.e.image, evs), data, d, lo, size);
      }
  }

  lemma PlacedEnds(p: PinCfg, n: nat)
    requires Placed(p, n) && p.halType != Bit
    ensures p.byteOffset + BytesOf(p) <= n
  {
  }

  // ---- Both frames ----

  /** The frame the Pi sends on such a bus. */
  ghost function PiFrame(ss: seq<SlaveIn>, cfg: Resolved, values: seq<int>, c: Pi.Command, stream: seq<byte>): seq<byte>
    requires BusOk(ss) && IsResolved(ss, cfg) && cfg.outBytes <= cfg.image
    requires |values| == |cfg.pins| && |stream| == Pi.StreamLen(LayoutOf(cfg))
  {
    GeneratedTableOk(ss, cfg);
    Pi.MosiFrame(LayoutOf(cfg), Pi.AllFramed(cfg.pins, cfg.outBytes), values, c, stream)
  }

  /** Outputs of any generated bus: what LinuxCNC sets on a pin is what the drives' image holds
      there, whenever no motion sample overlays it. */
  lemma GeneratedOutputs(ss: seq<SlaveIn>, cfg: Resolved, h: HB.Host, values: seq<int>, c: Pi.Command,
      stream: seq<byte>,
      image: seq<byte>, cycle: dword, i: nat)
    requires BusOk(ss) && IsResolved(ss, cfg) && cfg.outBytes <= cfg.image <= |image|
    requires |values| == |cfg.pins| && |stream| == Pi.StreamLen(LayoutOf(cfg)) && i < |cfg.pins|
      && cfg.pins[i].dir == Output
    requires var h' := HB.Ingest(LayoutOf(cfg), h, PiFrame(ss, cfg, values, c, stream));
      !LayoutOf(cfg).Streaming() || Motion.Pop(h'.motion, cycle).1 == None
    ensures var h' := HB.Ingest(LayoutOf(cfg), h, PiFrame(ss, cfg, values, c, stream));
      && |h'.stagedOut| == cfg.outBytes
      && Read(HB.OutputImage(LayoutOf(cfg), h', image, cycle), cfg.pins[i]) == Canon(cfg.pins[i], values[i])
  {
    hide IsResolved, HB.Ingest, Pi.MosiFrame, Pi.AllFramed, Pi.OutputsOk, Read, Canon, HB.OutputImage, Motion.Pop;
    GeneratedTableOk(ss, cfg);
    Pi.OutputsRoundTrip(LayoutOf(cfg), h, cfg.pins, values, c, stream, image, cycle, i);
  }

  /** Inputs of any generated bus: the Pi accepts the staged reply, and each input pin shows
      what the firmware reads there. */
  lemma GeneratedInputs(ss: seq<SlaveIn>, cfg: Resolved, h: HB.Host, wdog: word, image: seq<byte>, st: HB.ReplyStatus,
      p: PinCfg)
    requires BusOk(ss) && IsResolved(ss, cfg) && cfg.outBytes <= cfg.image <= |image| && p in cfg.pins && p.dir == Input
    ensures cfg.outBytes <= p.byteOffset
    ensures var l := LayoutOf(cfg);
      var f := HB.ReplyFrame(l, h, wdog, image, st);
      Pi.ReplyOk(l, f) && Placed(Pi.Framed(p, l.outBytes), |f|)
        && Pi.Deserialized(f, Pi.Framed(p, l.outBytes)) == Read(image, p)
  {
    hide IsResolved, HB.ReplyFrame, Pi.ReplyOk, Pi.Deserialized, Read;
    var l := LayoutOf(cfg);
    GeneratedPinsPlaced(ss, cfg, p);
    Pi.InputsRoundTrip(l, h, wdog, image, st, p);
  }

  // ---- The motion stream ----

  /** Image offset and width of every motion entry, in order. */
  function SmEntries(sm: Sm, cursor: nat): seq<(nat, nat)> {
    if sm == [] then []
    else
      var n := |sm| - 1;
      SmEntries(sm[..n], cursor) + if sm[n].motion then [(cursor + Bits(sm[..n]) / 8, sm[n].bits)] else []
  }

  function SmsEntries(sms: seq<Sm>, cursor: nat): seq<(nat, nat)> {
    if sms == [] then [] else SmsEntries(sms[..|sms| - 1], cursor) + SmEntries(sms[|sms| - 1], cursor)
  }

  function MotionEntries(ss: seq<SlaveIn>): seq<(nat, nat)> {
    if ss == [] then []
    else MotionEntries(ss[..|ss| - 1]) + SmsEntries(ss[|ss| - 1].outSms, OutBase(ss[..|ss| - 1]))
  }

  /** One field per entry, at its offset, of its whole bytes, inside the sample. */
  predicate Matches(m: Layout.Motion, es: seq<(nat, nat)>) {
    && |m.fields| == |es|
    && forall i :: 0 <= i < |es| ==>
      m.fields[i].imageOff == es[i].0 && m.fields[i].len == es[i].1 / 8
        && m.fields[i].sampleOff + m.fields[i].len <= m.sampleOff
  }

  lemma {:induction false} SmMatches(m: Layout.Motion, es: seq<(nat, nat)>, sm: Sm, cursor: nat)
    requires Matches(m, es)
    ensures Matches(SmMotion(m, sm, cursor), es + SmEntries(sm, cursor))
  {
    if sm == [] {
      assert es + SmEntries(sm, cursor) == es;
    } else {
      hide Bits;
      var n := |sm| - 1;
      SmMatches(m, es, sm[..n], cursor);
      assert es + SmEntries(sm, cursor)
        == (es + SmEntries(sm[..n], cursor)) + if sm[n].motion then [(cursor + Bits(sm[..n]) / 8, sm[n].bits)] else [];
    }
  }

  lemma {:induction false} SmsMatches(m: Layout.Motion, es: seq<(nat, nat)>, sms: seq<Sm>, cursor: nat)
    requires Matches(m, es)
    ensures Matches(SmsMotion(m, sms, cursor), es + SmsEntries(sms, cursor))
  {
    hide Matches, SmMotion, SmEntries;
    if sms == [] {
      assert es + SmsEntries(sms, cursor) == es;
    } else {
      var n := |sms| - 1;
      SmsMatches(m, es, sms[..n], cursor);
      SmMatches(SmsMotion(m, sms[..n], cursor), es + SmsEntries(sms[..n], cursor), sms[n], cursor);
      assert es + SmsEntries(sms, cursor) == (es + SmsEntries(sms[..n], cursor)) + SmEntries(sms[n], cursor);
    }
  }

  lemma {:induction false} FieldsMatch(ss: seq<SlaveIn>)
    ensures Matches(AllMotion(ss), MotionEntries(ss))
  {
    if ss == [] {
    } else {
      hide Matches, SmsMotion, SmsEntries, OutBase;
      var n := |ss| - 1;
      FieldsMatch(ss[..n]);
      SmsMatches(AllMotion(ss[..n]), MotionEntries(ss[..n]), ss[n].outSms, OutBase(ss[..n]));
    }
  }

  lemma {:induction false} EntriesWhole(ss: seq<SlaveIn>)
    requires forall s <- ss :: SlaveMotionOk(s)
    ensures forall e <- MotionEntries(ss) :: e.1 % 8 == 0
  {
    if ss == [] {
    } else {
      hide SmsEntries, SlaveMotionOk, OutBase;
      var n := |ss| - 1;
      assert forall s <- ss[..n] :: s in ss;
      EntriesWhole(ss[..n]);
      assert ss[n] in ss;
      SmsWhole(ss[n].outSms, |ss[n].outSms|, OutBase(ss[..n])) by {
        assert SlaveMotionOk(ss[n]);
        MotionOkSms(ss[n]);
      }
      assert ss[n].outSms[..|ss[n].outSms|] == ss[n].outSms;
    }
  }

  lemma MotionOkSms(s: SlaveIn)
    requires SlaveMotionOk(s)
    ensures forall i :: 0 <= i < |s.outSms| ==> SmMotionOk(s.outSms[i])
  {
  }

  lemma {:induction false} SmsWhole(sms: seq<Sm>, k: nat, cursor: nat)
    requires k <= |sms| && forall i :: 0 <= i < |sms| ==> SmMotionOk(sms[i])
    ensures forall e <- SmsEntries(sms[..k], cursor) :: e.1 % 8 == 0
  {
    hide SmEntries, SmMotionOk;
    if k > 0 {
      SmsWhole(sms, k - 1, cursor);
      assert sms[..k][..k - 1] == sms[..k - 1];
      SmWhole(sms[k - 1], |sms[k - 1]|, cursor);
      assert sms[k - 1][..|sms[k - 1]|] == sms[k - 1];
    }
  }

  lemma {:induction false} SmWhole(sm: Sm, k: nat, cursor: nat)
    requires k <= |sm| && SmMotionOk(sm)
    ensures forall e <- SmEntries(sm[..k], cursor) :: e.1 % 8 == 0
  {
    hide Bits;
    if k > 0 {
      SmWhole(sm, k - 1, cursor);
      assert sm[..k][..k - 1] == sm[..k - 1] && sm[..k][k - 1] == sm[k - 1];
      assert MotionOk(sm[k - 1], Bits(sm[..k - 1]));
    }
  }

  /** The Pi's loops index a pin for every field exactly if every motion entry starts where some
      output pin does; elsewhere the header carries the index -1. */
  lemma SourcedIff(ss: seq<SlaveIn>, cfg: Resolved)
    requires IsResolved(ss, cfg) && cfg.outBytes <= cfg.image
    ensures PiMotion.Sourced(LayoutOf(cfg), cfg.pins)
      <==> forall e <- MotionEntries(ss) :: exists p :: p in cfg.pins && p.dir == Output && p.byteOffset == e.0
  {
    hide AllMotion, AllPins, MotionEntries, OutBase, InBase;
    FieldsMatch(ss);
    var l, es := LayoutOf(cfg), MotionEntries(ss);
    if PiMotion.Sourced(l, cfg.pins) {
      forall e | e in es
        ensures exists p :: p in cfg.pins && p.dir == Output && p.byteOffset == e.0
      {
        var i :| 0 <= i < |es| && es[i] == e;
        assert cfg.fields[i] in l.fields;
        assert cfg.pins[PiMotion.Source(l, cfg.pins, i)] in cfg.pins;
      }
    }
    if forall e <- es :: exists p :: p in cfg.pins && p.dir == Output && p.byteOffset == e.0 {
      forall f | f in l.fields
        ensures PiMotion.SourceFrom(cfg.pins, f.imageOff, 0).Some?
      {
        var i :| 0 <= i < |l.fields| && l.fields[i] == f;
        assert es[i] in es;
        var p :| p in cfg.pins && p.dir == Output && p.byteOffset == es[i].0;
        var j :| 0 <= j < |cfg.pins| && cfg.pins[j] == p;
      }
    }
  }

  /** And its shifts stay within a HAL value, over a batch of at least one sample, exactly if
      no motion entry is wider than 32 bits and they are not all empty. */
  lemma StreamSizedIff(ss: seq<SlaveIn>, cfg: Resolved)
    requires IsResolved(ss, cfg) && cfg.outBytes <= cfg.image && forall s <- ss :: SlaveMotionOk(s)
    ensures PiMotion.StreamSized(LayoutOf(cfg))
      <==> (forall e <- MotionEntries(ss) :: e.1 <= 32) && (MotionEntries(ss) != [] ==> cfg.sampleBytes > 0)
  {
    hide AllMotion, AllPins, MotionEntries, OutBase, InBase, DeepestLead, SlaveMotionOk;
    FieldsMatch(ss);
    EntriesWhole(ss);
    var l, es := LayoutOf(cfg), MotionEntries(ss);
    if PiMotion.StreamSized(l) {
      forall e | e in es
        ensures e.1 <= 32
      {
        var i :| 0 <= i < |es| && es[i] == e;
        assert cfg.fields[i] in l.fields;
      }
    }
    if (forall e <- es :: e.1 <= 32) && (es != [] ==> cfg.sampleBytes > 0) {
      forall f | f in l.fields
        ensures f.sampleOff + f.len <= l.sampleBytes && f.len <= 4
      {
        var i :| 0 <= i < |l.fields| && l.fields[i] == f;
        assert es[i] in es;
      }
    }
  }

  /** Every motion entry is a pin of its own, of whole bytes. */
  predicate EntryPinned(e: Entry) { e.motion ==> e.pin.Some? && e.halType != Bit && 0 < e.bits <= 32 }

  predicate StreamPinned(ss: seq<SlaveIn>) { forall s <- ss, sm <- s.outSms, e <- sm :: EntryPinned(e) }

  /** The pin of a motion entry. */
  predicate Serves(p: PinCfg, e: (nat, nat)) {
    p.dir == Output && p.byteOffset == e.0 && p.halType != Bit && p.bitLen == e.1 && 0 < e.1 <= 32
  }

  ghost predicate Served(es: seq<(nat, nat)>, ps: seq<PinCfg>) { forall e <- es :: exists p :: p in ps && Serves(p, e) }

  lemma ServedJoin(a: seq<(nat, nat)>, ps: seq<PinCfg>, b: seq<(nat, nat)>, qs: seq<PinCfg>, more: seq<PinCfg>)
    requires Served(a, ps) && Served(b, qs)
    ensures Served(a + b, ps + (qs + more))
  {
    hide Serves;
    forall e | e in a + b
      ensures exists p :: p in ps + (qs + more) && Serves(p, e)
    {
      if e in a {
        var p :| p in ps && Serves(p, e);
        assert p in ps + (qs + more);
      } else {
        var p :| p in qs && Serves(p, e);
        assert p in ps + (qs + more);
      }
    }
  }

  lemma {:induction false} SmServed(sm: Sm, k: nat, cursor: nat)
    requires k <= |sm| && SmMotionOk(sm) && forall e <- sm :: EntryPinned(e)
    ensures Served(SmEntries(sm[..k], cursor), SmPins(sm[..k], cursor, Output))
  {
    hide Bits, Served;
    if k == 0 {
      NoneServed([]);
    } else {
      var e, acc := sm[k - 1], Bits(sm[..k - 1]);
      SmServed(sm, k - 1, cursor);
      assert sm[..k][..k - 1] == sm[..k - 1] && sm[..k][k - 1] == e && e in sm && MotionOk(e, acc);
      var pins := PinAt(e, cursor, acc, Output);
      if e.motion {
        OneServed((cursor + acc / 8, e.bits), pins[0]);
        ServedJoin(SmEntries(sm[..k - 1], cursor), SmPins(sm[..k - 1], cursor, Output), [(cursor + acc / 8, e.bits)],
          pins, []);
        assert pins + [] == pins;
      } else {
        NoneServed(pins);
        ServedJoin(SmEntries(sm[..k - 1], cursor), SmPins(sm[..k - 1], cursor, Output), [], pins, []);
        assert pins + [] == pins && SmEntries(sm[..k - 1], cursor) + [] == SmEntries(sm[..k - 1], cursor);
      }
    }
  }

  lemma NoneServed(ps: seq<PinCfg>)
    ensures Served([], ps)
  {
  }

  lemma OneServed(e: (nat, nat), p: PinCfg)
    requires Serves(p, e)
    ensures Served([e], [p])
  {
    assert p in [p];
  }

  lemma OneSmServed(sms: seq<Sm>, cursor: nat)
    requires |sms| <= 1 && forall sm <- sms :: SmMotionOk(sm) && forall e <- sm :: EntryPinned(e)
    ensures Served(SmsEntries(sms, cursor), SmsPins(sms, cursor, Output))
  {
    hide Served, SmMotionOk, SmPins, SmEntries;
    if |sms| == 1 {
      NoEntries(cursor);
      assert sms[..0] == [] && sms[0][..|sms[0]|] == sms[0];
      SmServed(sms[0], |sms[0]|, cursor);
      var ps, es := SmPins(sms[0], cursor, Output), SmEntries(sms[0], cursor);
      assert SmsPins(sms, cursor, Output) == [] + ps == ps && SmsEntries(sms, cursor) == [] + es == es;
    } else {
      NoneServed([]);
    }
  }

  lemma {:induction false} EntriesServed(ss: seq<SlaveIn>, total: nat)
    requires BusOk(ss) && StreamPinned(ss) && forall s <- ss :: SlaveMotionOk(s)
    ensures Served(MotionEntries(ss), AllPins(ss, total))
  {
    hide Served, SmsEntries, SmsPins, OutBase, InBase, SlaveMotionOk, EntryPinned, SmOk;
    if ss == [] {
      NoneServed(AllPins(ss, total));
    } else {
      var n := |ss| - 1;
      var s := ss[n];
      assert forall x <- ss[..n] :: x in ss;
      assert s in ss && SlaveOk(s);
      EntriesServed(ss[..n], total);
      MotionOkSms(s);
      OneSmServed(s.outSms, OutBase(ss[..n]));
      ServedJoin(MotionEntries(ss[..n]), AllPins(ss[..n], total), SmsEntries(s.outSms, OutBase(ss[..n])),
        SmsPins(s.outSms, OutBase(ss[..n]), Output), SmsPins(s.inSms, total + InBase(ss[..n]), Input));
    }
  }

  /** A pin of its own is the first output pin at its offset: no other pin reaches that byte. */
  lemma OwnPinFirst(pins: seq<PinCfg>, e: (nat, nat), k: nat)
    requires AllApart(pins) && AllShaped(pins) && k < |pins| && pins[k].dir == Output && pins[k].byteOffset == e.0
    requires exists p :: p in pins && Serves(p, e)
    ensures Serves(pins[k], e)
  {
    hide AllApart;
    var p :| p in pins && Serves(p, e);
    var j :| 0 <= j < |pins| && pins[j] == p;
    assert Shaped(pins[k]) && Shaped(pins[j]);
    if j != k {
      ApartAt(pins, j, k);
      assert false;
    }
  }

  lemma ServedIsSourced(ss: seq<SlaveIn>, cfg: Resolved)
    requires IsResolved(ss, cfg) && cfg.outBytes <= cfg.image && (forall s <- ss :: SlaveMotionOk(s))
    requires Served(MotionEntries(ss), cfg.pins)
    ensures PiMotion.StreamSized(LayoutOf(cfg)) && PiMotion.Sourced(LayoutOf(cfg), cfg.pins)
  {
    hide IsResolved, AllMotion, MotionEntries, SlaveMotionOk, PiMotion.Sourced, PiMotion.StreamSized, Matches;
    SourcedIff(ss, cfg);
    StreamSizedIff(ss, cfg);
    forall e | e in MotionEntries(ss)
      ensures e.1 <= 32 && exists p :: p in cfg.pins && p.dir == Output && p.byteOffset == e.0
    {
      var p :| p in cfg.pins && Serves(p, e);
    }
    if MotionEntries(ss) != [] {
      SampleSome(ss, cfg);
    }
  }

  lemma SampleSome(ss: seq<SlaveIn>, cfg: Resolved)
    requires IsResolved(ss, cfg) && MotionEntries(ss) != [] && (forall s <- ss :: SlaveMotionOk(s))
    requires Served(MotionEntries(ss), cfg.pins)
    ensures cfg.sampleBytes > 0
  {
    hide AllMotion, AllPins, MotionEntries, SlaveMotionOk;
    FieldsMatch(ss);
    EntriesWhole(ss);
    var e := MotionEntries(ss)[0];
    assert e in MotionEntries(ss);
    var p :| p in cfg.pins && Serves(p, e);
    assert AllMotion(ss).fields[0].len == e.1 / 8;
  }

  lemma SourceWidth(ss: seq<SlaveIn>, cfg: Resolved, k: nat)
    requires BusOk(ss) && IsResolved(ss, cfg) && cfg.outBytes <= cfg.image && (forall s <- ss :: SlaveMotionOk(s))
    requires Served(MotionEntries(ss), cfg.pins) && PiMotion.Sourced(LayoutOf(cfg), cfg.pins) && k < |cfg.fields|
    ensures var p := cfg.pins[PiMotion.Source(LayoutOf(cfg), cfg.pins, k)];
      p.halType != Bit && p.bitLen == 8 * cfg.fields[k].len
  {
    hide AllMotion, AllPins, MotionEntries, OutBase, InBase, SlaveMotionOk, BusOk, AllShaped, AllApart, Halves,
      PiMotion.Sourced;
    var es := MotionEntries(ss);
    FieldsMatch(ss);
    EntriesWhole(ss);
    TableApart(ss);
    assert es[k] in es;
    OwnPinFirst(cfg.pins, es[k], PiMotion.Source(LayoutOf(cfg), cfg.pins, k));
  }

  /** Where every motion entry is a pin of its own, the Pi's stream is in order: each field has
      its pin, of its width, and the loops stay inside the block. */
  lemma GeneratedStreamOk(ss: seq<SlaveIn>, cfg: Resolved)
    requires BusOk(ss) && IsResolved(ss, cfg) && cfg.outBytes <= cfg.image
    requires (forall s <- ss :: SlaveMotionOk(s)) && StreamPinned(ss)
    ensures PiMotion.StreamSized(LayoutOf(cfg)) && MotionLink.StreamOk(LayoutOf(cfg), cfg.pins)
  {
    hide IsResolved, SlaveMotionOk, StreamPinned, BusOk, MotionLink.InOrder, PiMotion.Sourced, Served, MotionEntries;
    EntriesServed(ss, OutBase(ss));
    ResolvedBase(ss, cfg);
    ServedIsSourced(ss, cfg);
    FieldsAmongOutputs(ss, cfg);
    forall k | 0 <= k < |cfg.fields|
      ensures var p := cfg.pins[PiMotion.Source(LayoutOf(cfg), cfg.pins, k)];
        p.halType != Bit && p.bitLen == 8 * cfg.fields[k].len
    {
      SourceWidth(ss, cfg, k);
    }
  }

  /** So, on the cycle a setpoint is handed out, every streamed pin of such a bus shows what
      LinuxCNC had set it to, as far as the firmware's 64 sample bytes reach. */
  lemma GeneratedStreamShows(ss: seq<SlaveIn>, cfg: Resolved, h: HB.Host, values: seq<int>, image: seq<byte>,
      cycle: dword, k: nat)
    requires BusOk(ss) && IsResolved(ss, cfg) && cfg.outBytes <= cfg.image <= |image|
    requires (forall s <- ss :: SlaveMotionOk(s)) && StreamPinned(ss) && |values| == |cfg.pins| && k < |cfg.fields|
    requires PiMotion.FieldsFit(LayoutOf(cfg)) && PiMotion.Sourced(LayoutOf(cfg), cfg.pins)
    requires h.outValid && |h.stagedOut| == cfg.outBytes
      && cfg.fields[k].sampleOff + cfg.fields[k].len <= Motion.SAMPLE_MAX
    requires var l := LayoutOf(cfg);
      Motion.Pop(h.motion, cycle).1
      == Some(Motion.FitTo(PiMotion.Setpoint(l, PiMotion.Streamed(l, cfg.pins, values)), l.SampleLen()))
    ensures var l := LayoutOf(cfg);
      var i := PiMotion.Source(l, cfg.pins, k);
      Read(HB.OutputImage(l, h, image, cycle), cfg.pins[i]) == Canon(cfg.pins[i], values[i])
  {
    hide IsResolved, SlaveMotionOk, StreamPinned, BusOk, PiMotion.Sourced, PiMotion.Setpoint, PiMotion.Streamed, Read,
      Canon;
    hide Motion.Pop, Motion.FitTo, HB.OutputImage, Pi.TableOk, MotionLink.InOrder;
    GeneratedStreamOk(ss, cfg);
    GeneratedTableOk(ss, cfg);
    assert cfg.fields[k] in cfg.fields;
    var f := cfg.fields[k];
    assert f.sampleOff + f.len <= cfg.sampleBytes && cfg.sampleBytes > 0 by {
      FieldsAmongOutputs(ss, cfg);
      SourceSome(ss, cfg, k);
    }
    MotionLink.StreamedPinShows(LayoutOf(cfg), h, cfg.pins, values, image, cycle, k);
  }

  lemma SourceSome(ss: seq<SlaveIn>, cfg: Resolved, k: nat)
    requires BusOk(ss) && IsResolved(ss, cfg) && (forall s <- ss :: SlaveMotionOk(s)) && StreamPinned(ss)
      && k < |cfg.fields|
    ensures cfg.sampleBytes > 0
  {
    hide StreamPinned, BusOk, SlaveMotionOk, Served, MotionEntries, AllPins, AllMotion;
    EntriesServed(ss, OutBase(ss));
    FieldsMatch(ss);
    SampleSome(ss, cfg);
  }

  /** The generator takes a 64-bit motion entry without a pin, and neither holds. */
  lemma UnsourcedMotion()
    ensures var ss, esi := [SlaveIn(0, [[Entry(64, S32, None, true)]], [], 0)], map[0 := 4];
      Resolvable(ss, esi) && AllPins(ss, OutBase(ss)) == [] && MotionEntries(ss) == [(0, 64)]
    ensures forall cfg :: IsResolved([SlaveIn(0, [[Entry(64, S32, None, true)]], [], 0)], cfg) ==>
      cfg.outBytes <= cfg.image && !PiMotion.Sourced(LayoutOf(cfg), cfg.pins) && !PiMotion.StreamSized(LayoutOf(cfg))
  {
    var e := Entry(64, S32, None, true);
    var s := SlaveIn(0, [[e]], [], 0);
    var ss, esi := [s], map[0 := 4];
    SoleEntry(e, s);
    forall cfg | IsResolved(ss, cfg)
      ensures cfg.outBytes <= cfg.image && !PiMotion.Sourced(LayoutOf(cfg), cfg.pins)
        && !PiMotion.StreamSized(LayoutOf(cfg))
    {
      assert (0, 64) in MotionEntries(ss);
      SourcedIff(ss, cfg);
      StreamSizedIff(ss, cfg);
      hide MotionEntries, AllMotion, AllPins;
    }
  }

  lemma NoEntries(cursor: nat)
    ensures SmsEntries([], cursor) == [] && MotionEntries([]) == []
  {
  }

  lemma SoleEntry(e: Entry, s: SlaveIn)
    requires e == Entry(64, S32, None, true) && s == SlaveIn(0, [[e]], [], 0)
    ensures Resolvable([s], map[0 := 4]) && AllPins([s], OutBase([s])) == [] && MotionEntries([s]) == [(0, 64)]
  {
    var sm := [e];
    var sms: seq<Sm>, ss: seq<SlaveIn> := [sm], [s];
    assert sm[..0] == [] && sms[..0] == [] && ss[..0] == [];
    assert Bits(sm[..0]) == 0 && SmEntries(sm[..0], 0) == [] && SmPins(sm, 0, Output) == [];
    assert SmEntries(sm, 0) == [] + [(0, 64)];
    NoEntries(0);
    assert SmsPins(sms, 0, Output) == [];
    assert SmsEntries(sms, 0) == SmsEntries(sms[..0], 0) + [(0, 64)];
    assert OutBase([]) == 0 && AllPins([], OutBase([s])) == [] && MotionEntries([]) == [];
    assert SmMotionOk(sm) && SlaveMotionOk(s);
    assert SlavePins(s, 0, OutBase([s])) == [];
  }
}
