/** The cyclic process-data engine as a state machine on values (src/ethercat/cyclic.rs).

    `Engine` is the state of the source's `Cyclic`; each function is one of its steps. The
    class `Cyclic.Cyclic` runs the same steps over buffers and objects in place. */
module EngineSpec {
  import opened Bytes
  import opened Config
  import opened Datagram
  import opened Domain
  import opened Device
  import opened Ecrt

  const CYCLIC_BUF: nat := MAX_IMAGE + 64
  const MAX_APPENDED: nat := 3
  const PRIMING_CYCLES: nat := 3
  const RX_LEN: nat := 4

  datatype Phase = Priming | RequestingOp | Operational | Faulted

  /** One datagram appended after the cyclic LRW. */
  datatype Appended = Control | Status(idx: nat) | DcArmw | DcDiff | AlPoll

  datatype Applied = Nothing | OpReached(idx: nat) | Fault | Drift(v: int)

  datatype SlaveRt = SlaveRt(station: word, ringPos: word, reachedOp: bool)

  datatype Engine = Engine(
    image: seq<byte>, lastWkc: word, slaves: seq<SlaveRt>, refRingPos: word, phase: Phase,
    outstanding: bool, expectedIndex: byte, goodCycles: dword, totalCycles: dword, appended: seq<Appended>,
    opCursor: nat, opCtrl: bool, monToggle: bool, monCursor: nat, dcDiff: int, dcDiffMax: int, dcValid: bool)

  function Start(imageSize: nat, stations: seq<(word, word)>, refRingPos: word): Engine {
    Engine(Zeros(imageSize), 0, seq(|stations|, i requires 0 <= i < |stations| =>
      SlaveRt(stations[i].0, stations[i].1, false)),
      refRingPos, Priming, false, 0, 0, 0, [], 0, true, true, 0, 0, 0, false)
  }

  // ---- Decoding ----

  /** Register 0x092C: magnitude and sign. */
  function DecodeDcDiff(raw: dword): int {
    if raw >= 0x8000_0000 then -(raw - 0x8000_0000) else raw
  }

  /** Sign and magnitude: every difference below 2^31 is read as it is. */
  lemma DcDiffReads(v: int)
    requires -0x8000_0000 < v < 0x8000_0000
    ensures DecodeDcDiff(if v < 0 then 0x8000_0000 - v else v) == v
  {
  }

  function DecodeAppended(kind: Appended, dg: Reply): Applied {
    match kind
    case Control => Nothing
    case DcArmw => Nothing
    case Status(idx) =>
      var s := FirstByte(dg.data);
      if dg.wkc == 0 then Nothing
      else if AlError(s) then Fault
      else if AlState(s) == OP then OpReached(idx)
      else Nothing
    case AlPoll =>
      var s := FirstByte(dg.data);
      if dg.wkc == 0 then Nothing else if AlError(s) || AlState(s) != OP then Fault else Nothing
    case DcDiff =>
      if dg.wkc > 0 && |dg.data| >= 4 then Drift(DecodeDcDiff(FromLe32(dg.data[..4]))) else Nothing
  }

  /** The appended replies in build order, for as long as the frame goes on. */
  function DecodeTail(kinds: seq<Appended>, frame: seq<byte>, next: nat): (acts: seq<Applied>)
    ensures |acts| <= |kinds|
    decreases |kinds|
  {
    if kinds == [] || next == 0 then []
    else
      match ParseAt(frame, next)
      case None => []
      case Some((dg, n2)) => [DecodeAppended(kinds[0], dg)] + DecodeTail(kinds[1..], frame, n2)
  }

  // ---- Processing a reply ----

  function Abs(v: int): nat { if v < 0 then -v else v }

  function ApplyAction(e: Engine, a: Applied): Engine {
    match a
    case OpReached(idx) =>
      if idx < |e.slaves| then e.(slaves := e.slaves[idx := e.slaves[idx].(reachedOp := true)]) else e
    case Fault => e.(phase := Faulted)
    case Drift(v) =>
      e.(dcDiff := v, dcValid := true, dcDiffMax := if Abs(v) > Abs(e.dcDiffMax) then v else e.dcDiffMax)
    case Nothing => e
  }

  function ApplyActions(e: Engine, acts: seq<Applied>): Engine
    decreases |acts|
  {
    if acts == [] then e else ApplyActions(ApplyAction(e, acts[0]), acts[1..])
  }

  predicate AllReached(slaves: seq<SlaveRt>) { forall s <- slaves :: s.reachedOp }

  /** Working-counter health and the priming gate. */
  function Gate(e: Engine, wkc: word): Engine {
    var good: dword := if wkc == 0 then 0 else if e.goodCycles < 0xFFFF_FFFF then e.goodCycles + 1 else e.goodCycles;
    e.(goodCycles := good, phase := if e.phase == Priming && good >= PRIMING_CYCLES then RequestingOp else e.phase)
  }

  function OpGate(e: Engine): Engine {
    if e.phase == RequestingOp && AllReached(e.slaves) then e.(phase := Operational) else e
  }

  function Process(ranges: seq<(nat, nat)>, e: Engine, frame: seq<byte>): Engine {
    match ParseAt(frame, FRAME_HEADER)
    case None => e
    case Some((lrw, next)) =>
      var e1 := e.(image := ApplyRanges(e.image, ranges, lrw.data), lastWkc := lrw.wkc);
      OpGate(ApplyActions(Gate(e1, lrw.wkc), DecodeTail(e.appended, frame, next)))
  }

  /** Up to `tries` polls for the outstanding reply; what is left of the ring. */
  function Receive(ranges: seq<(nat, nat)>, e: Engine, ring: seq<RxFrame>, tries: nat): (Engine, seq<RxFrame>)
    decreases tries
  {
    if tries == 0 || ring == [] then (e, ring)
    else
      var p := Polled(ring[0], CYCLIC_BUF);
      if p == [] then (e, ring[1..])
      else if |p| >= 4 && p[3] == e.expectedIndex then (Process(ranges, e, p), ring[1..])
      else Receive(ranges, e, ring[1..], tries - 1)
  }

  // ---- Building the next frame ----

  function NextIndex(i: byte): byte { (i + 1) % 0x100 }

  /** The first slave from `k` on still short of OP. */
  function SkipReached(slaves: seq<SlaveRt>, k: nat): (r: nat)
    ensures k <= r && (r <= |slaves| || r == k)
    ensures forall j :: k <= j < r && j < |slaves| ==> slaves[j].reachedOp
    ensures r < |slaves| ==> !slaves[r].reachedOp
    decreases |slaves| - k
  {
    if k < |slaves| && slaves[k].reachedOp then SkipReached(slaves, k + 1) else k
  }

  function Read(index: byte, station: word, ado: word, n: nat): Dgram { Dgram(FPRD, index, station, ado, Zeros(n), 0) }

  /** What follows the LRW this cycle, and the engine after building it. */
  datatype Built = Built(e: Engine, dgs: seq<Dgram>, index: byte)

  function BuildOpRequest(e: Engine, index: byte): Built {
    var cur := SkipReached(e.slaves, e.opCursor);
    var ctrl := e.opCtrl || cur > e.opCursor;
    if cur >= |e.slaves| then Built(e.(opCursor := cur, opCtrl := ctrl), [], index)
    else
      var station := e.slaves[cur].station;
      var e1 := e.(opCursor := cur, opCtrl := !ctrl);
      if ctrl then
        Built(e1.(appended := [Control]), [Dgram(FPWR, index, station, AL_CONTROL, [OP, 0], 0)], NextIndex(index))
      else
        Built(e1.(appended := [Status(cur)]), [Read(index, station, AL_STATUS, 2)], NextIndex(index))
  }

  /** The first slave that is not the DC reference, else the first slave. */
  function FollowerStation(slaves: seq<SlaveRt>, refRingPos: word): word {
    FollowerFrom(slaves, refRingPos, if slaves == [] then 0 else slaves[0].station)
  }

  function FollowerFrom(slaves: seq<SlaveRt>, refRingPos: word, default: word): word {
    if slaves == [] then default
    else if slaves[0].ringPos != refRingPos then slaves[0].station
    else FollowerFrom(slaves[1..], refRingPos, default)
  }

  function BuildMonitor(e: Engine, index: byte): Built {
    if e.slaves == [] then Built(e, [], index)
    else if |e.slaves| == 1 then
      Built(e.(appended := [DcDiff]), [Read(index, e.slaves[0].station, DC_SYS_TIME_DIFF, 4)], NextIndex(index))
    else
      var armw := Dgram(ARMW, index, AutoincAdp(e.refRingPos), DC_SYS_TIME, Zeros(8), 0);
      var ti := NextIndex(index);
      var e1 := e.(monToggle := !e.monToggle);
      if e.monToggle then
        Built(e1.(appended := [DcArmw, DcDiff]),
          [armw, Read(ti, FollowerStation(e.slaves, e.refRingPos), DC_SYS_TIME_DIFF, 4)], NextIndex(ti))
      else
        var cur := (e.monCursor + 1) % |e.slaves|;
        Built(e1.(monCursor := cur, appended := [DcArmw, AlPoll]),
          [armw, Read(ti, e.slaves[cur].station, AL_STATUS, 2)], NextIndex(ti))
  }

  function BuildTail(e: Engine, index: byte): Built {
    match e.phase
    case RequestingOp => BuildOpRequest(e, index)
    case Operational => BuildMonitor(e, index)
    case _ => Built(e, [], index)
  }

  /** `send`: the LRW over the whole image, then this phase's tail. */
  function Send(e: Engine, index: byte, accepted: bool): Built {
    var e1 := e.(expectedIndex := index, appended := []);
    var t := BuildTail(e1, NextIndex(index));
    Built(t.e.(outstanding := accepted), [LrwOf(e.image, index)] + t.dgs, t.index)
  }

  /** The part of a tick before outputs are applied. */
  function BeginTick(ranges: seq<(nat, nat)>, e: Engine, ring: seq<RxFrame>): (Engine, seq<RxFrame>) {
    var e1 := e.(totalCycles := (e.totalCycles + 1) % 0x1_0000_0000);
    if e.outstanding then
      var (e2, ring') := Receive(ranges, e1, ring, RX_LEN);
      (e2.(outstanding := false), ring')
    else (e1, ring)
  }

  /** One cycle without a host. */
  function Tick(ranges: seq<(nat, nat)>, e: Engine, index: byte, ring: seq<RxFrame>, accepted: bool): Built {
    Send(BeginTick(ranges, e, ring).0, index, accepted)
  }
}
