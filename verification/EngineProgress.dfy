/** Bounded progress of the cyclic engine (src/ethercat/cyclic.rs:262-271, 482-519): against a
    bus that answers, the phase after each cycle is known exactly. */
module EngineProgress {
  import opened Bytes
  import opened Config
  import opened Datagram
  import opened Domain
  import opened Device
  import opened Ecrt
  import opened EngineSpec
  import opened EngineProofs
  import opened EngineRuns

  /** A bus in working order: the reply has the datagrams of the request, every working counter
      is positive, and every AL-status read answers OP without the error bit. */
  predicate GoodReply(sent: seq<Dgram>, got: seq<Dgram>) {
    && SameShape(sent, got)
    && (forall k :: 0 <= k < |got| ==> got[k].wkc > 0)
    && (forall k :: 0 <= k < |got| && sent[k].cmd == 0x04 && sent[k].ado == 0x0130 ==>
      !AlError(FirstByte(got[k].payload)) && AlState(FirstByte(got[k].payload)) == OP)
  }

  /** The cycle's frame is accepted, and the reply outstanding at its start arrives in order. */
  ghost predicate Answered(b: Built, c: Cycle) {
    && c.accepted && |c.image| <= MAX_IMAGE
    && (b.e.outstanding ==> exists got, trailer ::
      GoodReply(b.dgs, got) && Taken(b.e.expectedIndex, c.ring, RX_LEN) == Some(Frame(got) + trailer))
  }

  ghost predicate AllAnswered(ranges: seq<(nat, nat)>, b: Built, cs: seq<Cycle>)
    decreases |cs|
  {
    cs == [] || (Answered(b, cs[0]) && AllAnswered(ranges, TurnBuilt(ranges, b.e, cs[0]), cs[1..]))
  }

  /** The phase due after `t` cycles with `n` slaves. */
  function Due(n: nat, t: nat): Phase {
    if t < 4 then Priming else if t < 2 * n + 4 then RequestingOp else Operational
  }

  predicate ReachedTo(slaves: seq<SlaveRt>, k: nat) {
    forall j :: 0 <= j < |slaves| ==> (slaves[j].reachedOp <==> j < k)
  }

  /** Where the handshake stands after `t` cycles: slaves before the cursor are in OP, and the
      cursor is served a control write and a status read in turn. */
  predicate Stage(e: Engine, t: nat) {
    && e.phase == Due(|e.slaves|, t)
    && (e.outstanding <==> t > 0)
    && (t < 4 ==>
      && ReachedTo(e.slaves, 0) && e.goodCycles == (if t == 0 then 0 else t - 1)
      && e.opCursor == 0 && e.opCtrl && e.appended == [])
    && (4 <= t < 2 * |e.slaves| + 4 ==> var k := (t - 4) / 2;
      && ReachedTo(e.slaves, k) && e.opCursor == k
      && (if t % 2 == 0 then !e.opCtrl && e.appended == [Control] else e.opCtrl && e.appended == [Status(k)]))
  }

  /** What is in flight fits the bookkeeping. */
  predicate InFlight(b: Built) {
    && |b.dgs| == 1 + |b.e.appended| && Fits(b.dgs)
    && forall k :: 0 <= k < |b.e.appended| ==> Describes(b.e.appended[k], b.dgs[k + 1], b.e)
  }

  lemma TurnInFlight(ranges: seq<(nat, nat)>, e: Engine, c: Cycle)
    requires |c.image| <= MAX_IMAGE
    ensures InFlight(TurnBuilt(ranges, e, c))
  {
    var e1 := BeginTick(ranges, e, c.ring).0.(image := c.image);
    SentIsDescribed(e1, c.index, c.accepted);
    SentFits(e1, c.index, c.accepted);
    SendKeepsSlaves(e1, c.index, c.accepted);
    hide Send, BeginTick;
  }

  lemma SendKeepsSlaves(e: Engine, index: byte, accepted: bool)
    ensures Send(e, index, accepted).e.slaves == e.slaves
  {
    TailKeeps(e.(expectedIndex := index, appended := []), NextIndex(index));
    hide BuildTail;
  }

  /** A good reply to described datagrams: status reads say `OpReached`, nothing says `Fault`. */
  lemma GoodActions(b: Built, got: seq<Dgram>, i: nat)
    requires InFlight(b) && GoodReply(b.dgs, got)
    ensures |got| == |b.e.appended| + 1
    ensures Fault !in Actions(b.e.appended, got)
    ensures OpReached(i) in Actions(b.e.appended, got) <==> Status(i) in b.e.appended
  {
    var acts := Actions(b.e.appended, got);
    forall k | 0 <= k < |acts|
      ensures acts[k] != Fault
      ensures acts[k] == OpReached(i) <==> b.e.appended[k] == Status(i)
    {
      var dg, sent := got[k + 1], b.dgs[k + 1];
      assert Describes(b.e.appended[k], sent, b.e);
      assert dg.wkc > 0;
      assert acts[k] == DecodeAppended(b.e.appended[k], ReplyOf(dg));
    }
    if OpReached(i) in acts {
      var k :| 0 <= k < |acts| && acts[k] == OpReached(i);
      assert b.e.appended[k] == Status(i);
    }
    if Status(i) in b.e.appended {
      var k :| 0 <= k < |acts| && b.e.appended[k] == Status(i);
      assert acts[k] == OpReached(i);
    }
  }

  /** What a good reply makes of the engine. */
  predicate Advanced(e: Engine, f: Engine) {
    && |f.slaves| == |e.slaves| && f.opCursor == e.opCursor && f.opCtrl == e.opCtrl
    && f.goodCycles == (if e.goodCycles < 0xFFFF_FFFF then e.goodCycles + 1 else e.goodCycles)
    && (forall i :: 0 <= i < |f.slaves| ==> f.slaves[i].reachedOp == (e.slaves[i].reachedOp || Status(i) in e.appended))
    && var p := if e.phase == Priming && f.goodCycles >= PRIMING_CYCLES then RequestingOp else e.phase;
       f.phase == if p == RequestingOp && AllReached(f.slaves) then Operational else p
  }

  lemma ReplyAdvances(ranges: seq<(nat, nat)>, b: Built, e: Engine, got: seq<Dgram>, trailer: seq<byte>)
    requires InFlight(b) && GoodReply(b.dgs, got)
    requires e.appended == b.e.appended && e.slaves == b.e.slaves
    ensures Advanced(e, Process(ranges, e, Frame(got) + trailer))
  {
    GoodActions(b, got, 0);
    FitsToo(b.dgs, got);
    ReplyDecoded(ranges, e, got, trailer);
    var acts := Actions(e.appended, got);
    var e1 := Gate(e.(image := ApplyRanges(e.image, ranges, got[0].payload), lastWkc := got[0].wkc), got[0].wkc);
    forall i: nat
      ensures OpReached(i) in acts <==> Status(i) in e.appended
    {
      GoodActions(b, got, i);
    }
    hide *;
    GateAdvances(e, ApplyRanges(e.image, ranges, got[0].payload), got[0].wkc, acts);
  }

  lemma GateAdvances(e: Engine, image: seq<byte>, wkc: word, acts: seq<Applied>)
    requires wkc > 0 && Fault !in acts && forall i: nat :: OpReached(i) in acts <==> Status(i) in e.appended
    ensures Advanced(e, OpGate(ApplyActions(Gate(e.(image := image, lastWkc := wkc), wkc), acts)))
  {
    var e1 := Gate(e.(image := image, lastWkc := wkc), wkc);
    var e2 := ApplyActions(e1, acts);
    ActionsCore(e1, acts);
    forall i | 0 <= i < |e2.slaves|
      ensures e2.slaves[i].reachedOp == (e.slaves[i].reachedOp || Status(i) in e.appended)
    {
      ActionsFlags(e1, acts, i);
    }
    hide ApplyActions, AllReached;
  }

  lemma FitsToo(sent: seq<Dgram>, got: seq<Dgram>)
    requires Fits(sent) && SameShape(sent, got)
    ensures Fits(got)
  {
    forall d | d in got
      ensures |d.payload| < LEN_LIMIT
    {
      var k :| 0 <= k < |got| && got[k] == d;
      assert sent[k] in sent;
    }
  }

  /** The engine a cycle sends from: unchanged but for the reply of a good bus. */
  lemma BeginAdvances(ranges: seq<(nat, nat)>, b: Built, c: Cycle)
    requires b.e.outstanding && InFlight(b) && Answered(b, c)
    ensures Advanced(b.e, BeginTick(ranges, b.e, c.ring).0)
  {
    var got, trailer :| GoodReply(b.dgs, got) && Taken(b.e.expectedIndex, c.ring, RX_LEN) == Some(Frame(got) + trailer);
    hide *;
    TakenAdvances(ranges, b, c.ring, got, trailer);
  }

  lemma TakenAdvances(ranges: seq<(nat, nat)>, b: Built, ring: seq<RxFrame>, got: seq<Dgram>, trailer: seq<byte>)
    requires b.e.outstanding && InFlight(b) && GoodReply(b.dgs, got)
    requires Taken(b.e.expectedIndex, ring, RX_LEN) == Some(Frame(got) + trailer)
    ensures Advanced(b.e, BeginTick(ranges, b.e, ring).0)
  {
    var e1 := b.e.(totalCycles := (b.e.totalCycles + 1) % 0x1_0000_0000);
    ReplyAdvances(ranges, b, e1, got, trailer);
    BeginTaken(ranges, b.e, e1, ring, Frame(got) + trailer);
    hide *;
    var f := Process(ranges, e1, Frame(got) + trailer);
    AdvancedFrom(b.e, e1, f);
  }

  lemma BeginTaken(ranges: seq<(nat, nat)>, e: Engine, e1: Engine, ring: seq<RxFrame>, p: seq<byte>)
    requires e.outstanding && Taken(e.expectedIndex, ring, RX_LEN) == Some(p)
    requires e1 == e.(totalCycles := (e.totalCycles + 1) % 0x1_0000_0000)
    ensures BeginTick(ranges, e, ring).0 == Process(ranges, e1, p).(outstanding := false)
  {
    ReceiveIsProcess(ranges, e1, ring, RX_LEN);
    hide Process, Receive, Taken;
  }

  lemma AdvancedFrom(e: Engine, e1: Engine, f: Engine)
    requires e1 == e.(totalCycles := e1.totalCycles) && Advanced(e1, f)
    ensures Advanced(e, f.(outstanding := false))
  {
  }

  /** One answered cycle moves the handshake on by one. */
  lemma StageStep(ranges: seq<(nat, nat)>, b: Built, c: Cycle, t: nat)
    requires Stage(b.e, t) && Answered(b, c) && (b.e.outstanding ==> InFlight(b))
    ensures Stage(TurnBuilt(ranges, b.e, c).e, t + 1)
    ensures |TurnBuilt(ranges, b.e, c).e.slaves| == |b.e.slaves|
  {
    var f := BeginTick(ranges, b.e, c.ring).0.(image := c.image);
    if t == 0 {
      hide Receive;
      SendPriming(f, c.index, 1);
    } else {
      BeginAdvances(ranges, b, c);
      var g := BeginTick(ranges, b.e, c.ring).0;
      hide BeginTick, Answered, InFlight, Send;
      AfterReply(b.e, g, t);
      SendStage(f, c.index, t + 1);
    }
  }

  /** Between the reply and the next frame. */
  predicate Midway(f: Engine, t: nat) {
    && f.phase == Due(|f.slaves|, t)
    && (t < 4 ==> ReachedTo(f.slaves, 0) && f.goodCycles == t - 1 && f.opCursor == 0 && f.opCtrl)
    && (4 <= t < 2 * |f.slaves| + 4 ==> var k := (t - 4) / 2;
      && ReachedTo(f.slaves, k) && f.opCursor <= k
      && (if t % 2 == 1 then !f.opCtrl && f.opCursor == k
        else f.opCtrl && (k == 0 || f.opCursor + 1 == k || f.opCursor == k)))
  }

  lemma AfterReply(e: Engine, f: Engine, t: nat)
    requires t > 0 && Stage(e, t) && Advanced(e, f)
    ensures Midway(f, t + 1)
  {
    var n := |e.slaves|;
    if t < 4 {
      assert ReachedTo(f.slaves, 0);
      assert AllReached(f.slaves) <==> n == 0 by { SomeReached(f.slaves, 0); }
    } else if t < 2 * n + 4 {
      var k := (t - 4) / 2;
      var k' := if t % 2 == 0 then k else k + 1;
      assert ReachedTo(f.slaves, k');
      SomeReached(f.slaves, k');
    }
  }

  lemma SomeReached(slaves: seq<SlaveRt>, k: nat)
    requires ReachedTo(slaves, k)
    ensures AllReached(slaves) <==> k >= |slaves|
  {
    if k < |slaves| {
      assert slaves[k] in slaves;
    }
  }

  lemma SkipIs(slaves: seq<SlaveRt>, c: nat, k: nat)
    requires ReachedTo(slaves, k) && c <= k < |slaves|
    ensures SkipReached(slaves, c) == k
  {
    var r := SkipReached(slaves, c);
    assert !slaves[k].reachedOp;
  }

  lemma SendPriming(f: Engine, index: byte, t: nat)
    requires f.phase == Priming
    ensures var g := Send(f, index, true).e;
      g == f.(expectedIndex := index, appended := [], outstanding := true)
  {
  }

  lemma SendStage(f: Engine, index: byte, t: nat)
    requires Midway(f, t) && t > 1
    ensures Stage(Send(f, index, true).e, t) && |Send(f, index, true).e.slaves| == |f.slaves|
  {
    if t < 4 {
      SendPriming(f, index, t);
    } else if t < 2 * |f.slaves| + 4 {
      SendRequest(f, index, t);
    } else {
      TailKeeps(f.(expectedIndex := index, appended := []), NextIndex(index));
      hide BuildTail;
    }
  }

  lemma SendRequest(f: Engine, index: byte, t: nat)
    requires Midway(f, t) && 4 <= t < 2 * |f.slaves| + 4
    ensures Stage(Send(f, index, true).e, t) && |Send(f, index, true).e.slaves| == |f.slaves|
  {
    var k := (t - 4) / 2;
    SkipIs(f.slaves, f.opCursor, k);
    hide SkipReached, Read;
  }

  function RunBuilt(ranges: seq<(nat, nat)>, b: Built, cs: seq<Cycle>): Built
    decreases |cs|
  {
    if cs == [] then b else RunBuilt(ranges, TurnBuilt(ranges, b.e, cs[0]), cs[1..])
  }

  /** `b` is at stage `t`, with its bookkeeping in order. */
  predicate At(b: Built, t: nat) { Stage(b.e, t) && (b.e.outstanding ==> InFlight(b)) }

  lemma FirstCycle(ranges: seq<(nat, nat)>, b: Built, cs: seq<Cycle>, t: nat)
    requires cs != [] && At(b, t) && AllAnswered(ranges, b, cs)
    ensures var b' := TurnBuilt(ranges, b.e, cs[0]);
      At(b', t + 1) && |b'.e.slaves| == |b.e.slaves| && AllAnswered(ranges, b', cs[1..])
  {
    StageStep(ranges, b, cs[0], t);
    TurnInFlight(ranges, b.e, cs[0]);
    hide Stage, InFlight, Answered, TurnBuilt;
  }

  lemma {:induction false} StageRun(ranges: seq<(nat, nat)>, b: Built, cs: seq<Cycle>, t: nat)
    requires At(b, t) && AllAnswered(ranges, b, cs)
    ensures At(RunBuilt(ranges, b, cs), t + |cs|)
    ensures |RunBuilt(ranges, b, cs).e.slaves| == |b.e.slaves|
    decreases |cs|
  {
    hide At, AllAnswered, TurnBuilt;
    if cs == [] {
    } else {
      FirstCycle(ranges, b, cs, t);
      StageRun(ranges, TurnBuilt(ranges, b.e, cs[0]), cs[1..], t + 1);
    }
  }

  lemma {:induction false} RunIsRunBuilt(ranges: seq<(nat, nat)>, b: Built, cs: seq<Cycle>)
    ensures RunBuilt(ranges, b, cs).e == Run(ranges, b.e, cs)
    decreases |cs|
  {
    if cs == [] {
    } else {
      RunIsRunBuilt(ranges, TurnBuilt(ranges, b.e, cs[0]), cs[1..]);
    }
  }

  /** Bounded progress: on a bus that answers every cycle, an engine for N slaves requests OP
      from the fourth cycle and is operational exactly from cycle 2N + 4 on. */
  lemma BoundedProgress(ranges: seq<(nat, nat)>, imageSize: nat, stations: seq<(word, word)>, refRingPos: word,
      cs: seq<Cycle>)
    requires AllAnswered(ranges, Built(Start(imageSize, stations, refRingPos), [], 0), cs)
    ensures Run(ranges, Start(imageSize, stations, refRingPos), cs).phase == Due(|stations|, |cs|)
  {
    var b := Built(Start(imageSize, stations, refRingPos), [], 0);
    StageRun(ranges, b, cs, 0);
    RunIsRunBuilt(ranges, b, cs);
  }
}
