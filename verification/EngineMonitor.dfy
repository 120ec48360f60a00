/** What an operational engine asks for, cycle after cycle (src/ethercat/cyclic.rs:528-596): over
    the frames it sends, every slave's AL status in turn and the drift of the clocks in between;
    and so how soon a slave that has left OP is noticed. */
module EngineMonitor {
  import opened Bytes
  import opened Config
  import opened Datagram
  import opened Domain
  import opened Device
  import opened Ecrt
  import opened EngineSpec
  import opened EngineProofs
  import opened EngineRuns
  import opened EngineProgress
  import Clocks

  // ---- What a frame asks for ----

  /** The last datagram reads the AL status of this slave. */
  predicate Polls(f: seq<Dgram>, station: word) {
    |f| == 3 && f[2].cmd == 0x04 && f[2].adp == station && f[2].ado == 0x0130 && f[2].payload == [0, 0]
  }

  /** The last datagram reads a system-time difference. */
  predicate ReadsDrift(f: seq<Dgram>) {
    |f| == 3 && f[2].cmd == 0x04 && f[2].ado == 0x092C && f[2].payload == [0, 0, 0, 0]
  }

  /** The one before it takes the time from the reference clock's ring position to all others. */
  predicate Distributes(f: seq<Dgram>, refRingPos: word) {
    && |f| == 3 && f[1].cmd == 0x0D && f[1].ado == 0x0910 && f[1].payload == [0, 0, 0, 0, 0, 0, 0, 0]
    && (f[1].adp + refRingPos) % 0x1_0000 == 0
  }

  /** Every frame of a run. */
  function Frames(ranges: seq<(nat, nat)>, e: Engine, cs: seq<Cycle>): (fs: seq<seq<Dgram>>)
    ensures |fs| == |cs|
    decreases |cs|
  {
    if cs == [] then [] else [TurnBuilt(ranges, e, cs[0]).dgs] + Frames(ranges, Turn(ranges, e, cs[0]), cs[1..])
  }

  /** Every frame of the run is sent by an operational engine. */
  predicate Operates(ranges: seq<(nat, nat)>, e: Engine, cs: seq<Cycle>)
    decreases |cs|
  {
    cs == [] ||
    (Turn(ranges, e, cs[0]).phase == Operational && Operates(ranges, Turn(ranges, e, cs[0]), cs[1..]))
  }

  predicate SameStations(a: seq<SlaveRt>, b: seq<SlaveRt>) {
    |a| == |b| && forall i :: 0 <= i < |a| ==> a[i].station == b[i].station && a[i].ringPos == b[i].ringPos
  }

  // ---- One cycle ----

  /** Taking a reply leaves the slaves' addresses and the monitor's place alone, and an
      operational engine operational unless it faults. */
  predicate Undisturbed(e: Engine, f: Engine) {
    && SameStations(e.slaves, f.slaves) && f.refRingPos == e.refRingPos
    && f.monToggle == e.monToggle && f.monCursor == e.monCursor
    && (e.phase == Operational ==> f.phase == Operational || f.phase == Faulted)
  }

  lemma {:induction false} ActionsUndisturbed(e: Engine, acts: seq<Applied>)
    ensures Undisturbed(e, ApplyActions(e, acts))
  {
    ActionsCore(e, acts);
    var f := ApplyActions(e, acts);
    forall i | 0 <= i < |e.slaves|
      ensures f.slaves[i].station == e.slaves[i].station && f.slaves[i].ringPos == e.slaves[i].ringPos
    {
      ActionsFlags(e, acts, i);
    }
    hide ApplyActions;
  }

  lemma ProcessUndisturbed(ranges: seq<(nat, nat)>, e: Engine, frame: seq<byte>)
    ensures Undisturbed(e, Process(ranges, e, frame))
  {
    match ParseAt(frame, FRAME_HEADER)
    case None =>
    case Some((lrw, next)) =>
      var e1 := Gate(e.(image := ApplyRanges(e.image, ranges, lrw.data), lastWkc := lrw.wkc), lrw.wkc);
      ActionsUndisturbed(e1, DecodeTail(e.appended, frame, next));
      hide ApplyActions, DecodeTail, ApplyRanges, ParseAt, AllReached;
  }

  lemma BeginUndisturbed(ranges: seq<(nat, nat)>, e: Engine, ring: seq<RxFrame>)
    ensures Undisturbed(e, BeginTick(ranges, e, ring).0)
  {
    var e1 := e.(totalCycles := (e.totalCycles + 1) % 0x1_0000_0000);
    hide Process, Receive, Taken;
    if e.outstanding {
      ReceiveIsProcess(ranges, e1, ring, RX_LEN);
      match Taken(e.expectedIndex, ring, RX_LEN) {
        case None =>
        case Some(p) => ProcessUndisturbed(ranges, e1, p);
      }
    }
  }

  /** The next place around. */
  function After(c: nat, n: nat): nat
    requires n > 0
  {
    (c + 1) % n
  }

  /** What an operational engine sends, and where that leaves the monitor. */
  predicate Monitored(e: Engine, b: Built) {
    && Distributes(b.dgs, e.refRingPos) && b.e.monToggle == !e.monToggle && b.e.refRingPos == e.refRingPos
    && if e.monToggle then ReadsDrift(b.dgs) && b.e.monCursor == e.monCursor
       else
         && e.slaves != [] && b.e.monCursor == After(e.monCursor, |e.slaves|)
         && Polls(b.dgs, e.slaves[b.e.monCursor].station) && b.e.appended == [DcArmw, AlPoll]
  }

  lemma SendMonitors(e: Engine, index: byte, accepted: bool)
    requires e.phase == Operational && |e.slaves| >= 2
    ensures Monitored(e, Send(e, index, accepted))
  {
    hide FollowerStation;
    assert Zeros(2) == [0, 0] && Zeros(4) == [0, 0, 0, 0] && Zeros(8) == [0, 0, 0, 0, 0, 0, 0, 0];
  }

  lemma TurnMonitors(ranges: seq<(nat, nat)>, e: Engine, c: Cycle)
    ensures SameStations(e.slaves, Turn(ranges, e, c).slaves)
    ensures |e.slaves| >= 2 && Turn(ranges, e, c).phase == Operational ==> Monitored(e, TurnBuilt(ranges, e, c))
    ensures e.phase == Operational ==> Turn(ranges, e, c).phase == Operational || Turn(ranges, e, c).phase == Faulted
  {
    hide Send, BeginTick, Monitored;
    var f := BeginTick(ranges, e, c.ring).0;
    BeginUndisturbed(ranges, e, c.ring);
    TurnPhase(ranges, e, c);
    SendKeepsSlaves(f.(image := c.image), c.index, c.accepted);
    if |e.slaves| >= 2 && f.phase == Operational {
      SendMonitors(f.(image := c.image), c.index, c.accepted);
      MonitoredSince(e, f.(image := c.image), TurnBuilt(ranges, e, c));
    }
  }

  lemma MonitoredSince(e: Engine, f: Engine, b: Built)
    requires Undisturbed(e, f) && Monitored(f, b)
    ensures Monitored(e, b)
  {
  }

  lemma TurnIsBuilt(ranges: seq<(nat, nat)>, e: Engine, c: Cycle)
    ensures Turn(ranges, e, c) == TurnBuilt(ranges, e, c).e
  {
  }

  // ---- Windows ----

  /** Slave `i` of `n` stands `d` places on. */
  predicate Ahead(c: nat, d: nat, n: nat, i: nat)
    requires n > 0
  {
    (c + d) % n == i
  }

  lemma NextPlace(c: nat, d: nat, n: nat, i: nat)
    requires d > 0 && n > 0 && Ahead(c, d, n, i)
    ensures if d == 1 then After(c, n) == i else Ahead(After(c, n), d - 1, n, i)
  {
    Clocks.ModAdd(d - 1, c + 1, n);
  }

  /** Within 2d frames the monitor gets to the slave d places on. */
  lemma {:induction false} PolledWithin(ranges: seq<(nat, nat)>, e: Engine, cs: seq<Cycle>, i: nat, d: nat)
    returns (k: nat)
    requires |e.slaves| >= 2 && i < |e.slaves| && Operates(ranges, e, cs)
    requires 1 <= d && Ahead(e.monCursor, d, |e.slaves|, i) && 2 * d - (if e.monToggle then 0 else 1) <= |cs|
    ensures k < |cs| && Polls(Frames(ranges, e, cs)[k], e.slaves[i].station)
    decreases |cs|
  {
    hide Turn, TurnBuilt, Polls, ReadsDrift, Distributes, Ahead, After;
    NextPlace(e.monCursor, d, |e.slaves|, i);
    var e' := Turn(ranges, e, cs[0]);
    TurnMonitors(ranges, e, cs[0]);
    TurnIsBuilt(ranges, e, cs[0]);
    if e.monToggle {
      k := PolledWithin(ranges, e', cs[1..], i, d);
      k := k + 1;
    } else if d == 1 {
      k := 0;
    } else {
      k := PolledWithin(ranges, e', cs[1..], i, d - 1);
      k := k + 1;
    }
  }

  /** The distance from the monitor's place to slave `i`. */
  lemma Distance(c: nat, i: nat, n: nat) returns (d: nat)
    requires i < n
    ensures 1 <= d <= n && Ahead(c, d, n, i)
  {
    var r := (i - c - 1) % n;
    d := r + 1;
    assert (c + d) % n == ((c + 1) + r) % n;
    Clocks.ModAdd(c + 1, i - c - 1, n);
    EuclidUnique(i, n, 0, i);
  }

  lemma {:induction false} FramesFrom(ranges: seq<(nat, nat)>, e: Engine, cs: seq<Cycle>, w: nat)
    requires w <= |cs|
    ensures Frames(ranges, e, cs)[w..] == Frames(ranges, Run(ranges, e, cs[..w]), cs[w..])
    ensures SameStations(e.slaves, Run(ranges, e, cs[..w]).slaves)
    decreases w
  {
    hide Turn, TurnBuilt;
    if w == 0 {
    } else {
      var e' := Turn(ranges, e, cs[0]);
      TurnMonitors(ranges, e, cs[0]);
      FramesFrom(ranges, e', cs[1..], w - 1);
      assert cs[..w][1..] == cs[1..][..w - 1] && cs[1..][w - 1..] == cs[w..];
      assert Frames(ranges, e, cs)[w..] == Frames(ranges, e', cs[1..])[w - 1..];
    }
  }

  lemma {:induction false} FramesUpTo(ranges: seq<(nat, nat)>, e: Engine, cs: seq<Cycle>, n: nat)
    requires n <= |cs|
    ensures Frames(ranges, e, cs[..n]) == Frames(ranges, e, cs)[..n]
    decreases n
  {
    hide Turn, TurnBuilt;
    if n > 0 {
      FramesUpTo(ranges, Turn(ranges, e, cs[0]), cs[1..], n - 1);
      assert cs[..n][1..] == cs[1..][..n - 1];
    }
  }

  /** In any run, among any 2N frames in a row that an engine for N slaves, two or more, sends
      while operational, there is for every slave one that reads its AL status. */
  lemma EveryWindowPolls(ranges: seq<(nat, nat)>, e: Engine, cs: seq<Cycle>, w: nat, i: nat) returns (k: nat)
    requires var n := |e.slaves|; n >= 2 && i < n && w + 2 * n <= |cs|
    requires Operates(ranges, Run(ranges, e, cs[..w]), cs[w..w + 2 * |e.slaves|])
    ensures w <= k < w + 2 * |e.slaves| && Polls(Frames(ranges, e, cs)[k], e.slaves[i].station)
  {
    hide Turn, TurnBuilt, Polls, Operates, Run, Frames;
    var n, f, win := |e.slaves|, Run(ranges, e, cs[..w]), cs[w..w + 2 * |e.slaves|];
    FramesFrom(ranges, e, cs, w);
    FramesUpTo(ranges, f, cs[w..], 2 * n);
    assert cs[w..][..2 * n] == win;
    var d := Distance(f.monCursor, i, n);
    k := PolledWithin(ranges, f, win, i, d);
    assert Frames(ranges, e, cs)[w..][k] == Frames(ranges, f, win)[k];
    k := k + w;
  }

  /** Of any two frames in a row just one reads the drift; the other reads a slave's status;
      both distribute the time. */
  lemma {:induction false} DriftEverySecond(ranges: seq<(nat, nat)>, e: Engine, cs: seq<Cycle>, k: nat)
    requires |e.slaves| >= 2 && Operates(ranges, e, cs) && k + 1 < |cs|
    ensures var a, b := Frames(ranges, e, cs)[k], Frames(ranges, e, cs)[k + 1];
      && Distributes(a, e.refRingPos) && Distributes(b, e.refRingPos) && (ReadsDrift(a) <==> !ReadsDrift(b))
      && (ReadsDrift(a) || exists s <- e.slaves :: Polls(a, s.station))
      && (ReadsDrift(b) || exists s <- e.slaves :: Polls(b, s.station))
    decreases |cs|
  {
    hide Turn, TurnBuilt, Distributes;
    var e' := Turn(ranges, e, cs[0]);
    OneFrame(ranges, e, cs[0]);
    if k > 0 {
      DriftEverySecond(ranges, e', cs[1..], k - 1);
      StationIn(e.slaves, e'.slaves, Frames(ranges, e, cs)[k]);
      StationIn(e.slaves, e'.slaves, Frames(ranges, e, cs)[k + 1]);
    } else {
      OneFrame(ranges, e', cs[1]);
      StationIn(e.slaves, e'.slaves, Frames(ranges, e, cs)[1]);
    }
  }

  lemma StationIn(a: seq<SlaveRt>, b: seq<SlaveRt>, f: seq<Dgram>)
    requires SameStations(a, b)
    ensures (exists s <- b :: Polls(f, s.station)) ==> exists s <- a :: Polls(f, s.station)
  {
    if s :| s in b && Polls(f, s.station) {
      var i :| 0 <= i < |b| && b[i] == s;
      assert a[i] in a && Polls(f, a[i].station);
    }
  }

  lemma OneFrame(ranges: seq<(nat, nat)>, e: Engine, c: Cycle)
    requires |e.slaves| >= 2 && Turn(ranges, e, c).phase == Operational
    ensures var b := TurnBuilt(ranges, e, c);
      && Distributes(b.dgs, e.refRingPos) && (ReadsDrift(b.dgs) <==> e.monToggle)
      && (ReadsDrift(b.dgs) || exists s <- e.slaves :: Polls(b.dgs, s.station))
      && Turn(ranges, e, c).monToggle == !e.monToggle && SameStations(e.slaves, Turn(ranges, e, c).slaves)
      && Turn(ranges, e, c).refRingPos == e.refRingPos
  {
    TurnMonitors(ranges, e, c);
    TurnIsBuilt(ranges, e, c);
    hide Turn, TurnBuilt, Distributes;
    var b := TurnBuilt(ranges, e, c);
    if !e.monToggle {
      assert e.slaves[b.e.monCursor] in e.slaves;
    }
  }

  // ---- A slave that has left OP ----

  /** An AL status with the error bit, or of another state than OP. */
  predicate OutOfOp(payload: seq<byte>) { payload != [] && ((payload[0] / 16) % 2 == 1 || payload[0] % 16 != 8) }

  /** The cycle's frame is accepted, and the frame sent in the cycle before comes back with its
      datagrams; if it read this slave's AL status, the slave has answered out of OP. */
  ghost predicate Dropped(b: Built, c: Cycle, station: word) {
    && c.accepted && |c.image| <= MAX_IMAGE
    && (b.e.outstanding ==> exists got: seq<Dgram>, trailer: seq<byte> ::
      && SameShape(b.dgs, got)
      && (Polls(b.dgs, station) ==> got[2].wkc > 0 && OutOfOp(got[2].payload))
      && Taken(b.e.expectedIndex, c.ring, RX_LEN) == Some(Frame(got) + trailer))
  }

  ghost predicate AllDropped(ranges: seq<(nat, nat)>, b: Built, cs: seq<Cycle>, station: word)
    decreases |cs|
  {
    cs == [] || (Dropped(b, cs[0], station) && AllDropped(ranges, TurnBuilt(ranges, b.e, cs[0]), cs[1..], station))
  }

  /** The answer to a poll is taken for what it says. */
  lemma PollFaults(ranges: seq<(nat, nat)>, b: Built, c: Cycle, station: word)
    requires InFlight(b) && b.e.outstanding && b.e.appended == [DcArmw, AlPoll] && Polls(b.dgs, station)
    requires Dropped(b, c, station)
    ensures Turn(ranges, b.e, c).phase == Faulted
  {
    hide Turn, TurnBuilt, Frame, Taken, Process;
    var got: seq<Dgram>, trailer: seq<byte> :| SameShape(b.dgs, got) && got[2].wkc > 0 && OutOfOp(got[2].payload)
      && Taken(b.e.expectedIndex, c.ring, RX_LEN) == Some(Frame(got) + trailer);
    var e1 := b.e.(totalCycles := (b.e.totalCycles + 1) % 0x1_0000_0000);
    FitsToo(b.dgs, got);
    AnswerFaults(ranges, e1, got, trailer);
    BeginTaken(ranges, b.e, e1, c.ring, Frame(got) + trailer);
    TurnPhase(ranges, b.e, c);
  }

  lemma AnswerFaults(ranges: seq<(nat, nat)>, e: Engine, got: seq<Dgram>, trailer: seq<byte>)
    requires e.appended == [DcArmw, AlPoll] && |got| == 3 && Fits(got) && got[2].wkc > 0 && OutOfOp(got[2].payload)
    ensures Process(ranges, e, Frame(got) + trailer).phase == Faulted
  {
    ReplyDecoded(ranges, e, got, trailer);
    hide Process, Frame, ApplyActions, ApplyRanges, AllReached;
    var acts := Actions(e.appended, got);
    assert acts[1] == Fault;
    ActionsCore(Gate(e.(image := ApplyRanges(e.image, ranges, got[0].payload), lastWkc := got[0].wkc), got[0].wkc),
      acts);
  }

  lemma SentWhenAccepted(ranges: seq<(nat, nat)>, e: Engine, c: Cycle)
    requires c.accepted
    ensures TurnBuilt(ranges, e, c).e.outstanding
  {
    hide BeginTick, BuildTail;
  }

  lemma {:induction false} FaultsWithin(ranges: seq<(nat, nat)>, b: Built, cs: seq<Cycle>, i: nat, d: nat)
    requires |b.e.slaves| >= 2 && i < |b.e.slaves| && b.e.phase == Operational
    requires AllDropped(ranges, b, cs, b.e.slaves[i].station)
    requires 1 <= d && Ahead(b.e.monCursor, d, |b.e.slaves|, i) && 2 * d + (if b.e.monToggle then 1 else 0) <= |cs|
    ensures Run(ranges, b.e, cs).phase == Faulted
    decreases |cs|
  {
    hide Turn, TurnBuilt, Polls, ReadsDrift, Distributes, Dropped, InFlight, Ahead, After;
    NextPlace(b.e.monCursor, d, |b.e.slaves|, i);
    var b' := TurnBuilt(ranges, b.e, cs[0]);
    TurnMonitors(ranges, b.e, cs[0]);
    TurnIsBuilt(ranges, b.e, cs[0]);
    if b'.e.phase == Faulted {
      FaultIsPermanent(ranges, b'.e, cs[1..]);
    } else if b.e.monToggle {
      FaultsWithin(ranges, b', cs[1..], i, d);
    } else if d == 1 {
      NowFaults(ranges, b, cs[0], cs[1], b.e.slaves[i].station);
      FaultIsPermanent(ranges, Turn(ranges, b'.e, cs[1]), cs[1..][1..]);
    } else {
      FaultsWithin(ranges, b', cs[1..], i, d - 1);
    }
  }

  lemma NowFaults(ranges: seq<(nat, nat)>, b: Built, c: Cycle, c': Cycle, station: word)
    requires var b' := TurnBuilt(ranges, b.e, c);
      Dropped(b, c, station) && Dropped(b', c', station) && Polls(b'.dgs, station) && b'.e.appended == [DcArmw, AlPoll]
    ensures Turn(ranges, TurnBuilt(ranges, b.e, c).e, c').phase == Faulted
  {
    TurnInFlight(ranges, b.e, c);
    SentWhenAccepted(ranges, b.e, c);
    hide Turn, TurnBuilt, InFlight, Polls;
    PollFaults(ranges, TurnBuilt(ranges, b.e, c), c', station);
  }

  /** Once operational, an engine for N slaves, two or more, is in `Faulted` at most 2N + 1
      cycles after any one of them has left OP, if its frames are accepted and answered in the
      cycle that follows. */
  lemma DroppedSlaveFaults(ranges: seq<(nat, nat)>, b: Built, cs: seq<Cycle>, i: nat)
    requires |b.e.slaves| >= 2 && i < |b.e.slaves| && b.e.phase == Operational
    requires |cs| >= 2 * |b.e.slaves| + 1 && AllDropped(ranges, b, cs, b.e.slaves[i].station)
    ensures Run(ranges, b.e, cs).phase == Faulted
  {
    hide Run, AllDropped;
    var d := Distance(b.e.monCursor, i, |b.e.slaves|);
    FaultsWithin(ranges, b, cs, i, d);
  }

  // ---- A single slave ----

  predicate ReadsNoStatus(f: seq<Dgram>) { forall d <- f :: d.cmd != 0x04 || d.ado != 0x0130 }

  lemma SendSingle(e: Engine, index: byte, accepted: bool)
    requires e.phase == Operational && |e.slaves| == 1
    ensures var b := Send(e, index, accepted); ReadsNoStatus(b.dgs) && b.e.appended == [DcDiff] && |b.dgs| == 2
  {
  }

  lemma TurnSingle(ranges: seq<(nat, nat)>, e: Engine, c: Cycle)
    requires |e.slaves| == 1 && Turn(ranges, e, c).phase == Operational
    ensures var b := TurnBuilt(ranges, e, c); ReadsNoStatus(b.dgs) && b.e.appended == [DcDiff] && |b.dgs| == 2
  {
    hide Send, BeginTick, ReadsNoStatus;
    BeginUndisturbed(ranges, e, c.ring);
    TurnPhase(ranges, e, c);
    SendSingle(BeginTick(ranges, e, c.ring).0.(image := c.image), c.index, c.accepted);
  }

  /** The source polls no status where there is only one slave: its engine, once operational,
      stays so whatever comes back, and whatever state the slave is in. */
  lemma {:induction false} SingleSlaveNeverFaults(ranges: seq<(nat, nat)>, e: Engine, cs: seq<Cycle>)
    requires |e.slaves| == 1 && e.phase == Operational && e.appended == [DcDiff]
    ensures Run(ranges, e, cs).phase == Operational && Operates(ranges, e, cs)
    decreases |cs|
  {
    hide Turn, TurnBuilt, ReadsNoStatus;
    if cs != [] {
      DriftIsNoFault(ranges, e, cs[0]);
      TurnMonitors(ranges, e, cs[0]);
      TurnSingle(ranges, e, cs[0]);
      TurnIsBuilt(ranges, e, cs[0]);
      SingleSlaveNeverFaults(ranges, Turn(ranges, e, cs[0]), cs[1..]);
    }
  }

  lemma DriftIsNoFault(ranges: seq<(nat, nat)>, e: Engine, c: Cycle)
    requires e.phase == Operational && e.appended == [DcDiff]
    ensures Turn(ranges, e, c).phase != Faulted
  {
    FaultIff(ranges, e, c);
    hide Turn, Taken, FaultReported;
    match Taken(e.expectedIndex, c.ring, RX_LEN)
    case None =>
    case Some(p) => NothingReported(p);
  }

  lemma NothingReported(frame: seq<byte>)
    ensures !FaultReported([DcDiff], frame)
  {
    hide ParseAt;
    match ParseAt(frame, FRAME_HEADER)
    case None =>
    case Some((_, next)) =>
      assert [DcDiff][1..] == [];
      assert forall r <- TailReplies([DcDiff], frame, next) :: r.0 == DcDiff;
  }

  /** So every slave is looked after exactly if there are at least two: among 2N frames in a
      row sent while operational there is a read of each slave's status, or, with one slave,
      of none. */
  lemma PolledIff(ranges: seq<(nat, nat)>, e: Engine, cs: seq<Cycle>)
    requires e.slaves != [] && |cs| == 2 * |e.slaves| && Operates(ranges, e, cs)
    ensures (forall s <- e.slaves :: exists f <- Frames(ranges, e, cs) :: Polls(f, s.station)) <==> |e.slaves| >= 2
    ensures |e.slaves| == 1 ==> forall f <- Frames(ranges, e, cs) :: ReadsNoStatus(f)
  {
    hide Operates, Turn, TurnBuilt;
    if |e.slaves| >= 2 {
      hide Frames;
      forall s | s in e.slaves
        ensures exists f <- Frames(ranges, e, cs) :: Polls(f, s.station)
      {
        var i :| 0 <= i < |e.slaves| && e.slaves[i] == s;
        var d := Distance(e.monCursor, i, |e.slaves|);
        var k := PolledWithin(ranges, e, cs, i, d);
        assert Frames(ranges, e, cs)[k] in Frames(ranges, e, cs);
      }
    } else {
      SingleFrames(ranges, e, cs);
      assert e.slaves[0] in e.slaves;
    }
  }

  lemma {:induction false} SingleFrames(ranges: seq<(nat, nat)>, e: Engine, cs: seq<Cycle>)
    requires |e.slaves| == 1 && Operates(ranges, e, cs)
    ensures forall f <- Frames(ranges, e, cs) :: ReadsNoStatus(f) && |f| == 2
    decreases |cs|
  {
    hide Turn, TurnBuilt, ReadsNoStatus;
    if cs != [] {
      TurnSingle(ranges, e, cs[0]);
      TurnMonitors(ranges, e, cs[0]);
      SingleFrames(ranges, Turn(ranges, e, cs[0]), cs[1..]);
    }
  }

  // ---- Asked before counted ----

  /** A frame that asks this slave for OP. */
  predicate AsksForOp(f: seq<Dgram>, station: word) {
    |f| == 2 && f[1].cmd == 0x05 && f[1].adp == station && f[1].ado == 0x0120 && f[1].payload == [0x08, 0x00]
  }

  ghost predicate Asked(fs: seq<seq<Dgram>>, station: word) { exists f <- fs :: AsksForOp(f, station) }

  /** Slaves that count as in OP, the one about to be read, and those a read in flight concerns
      have been asked. */
  ghost predicate AskedSoFar(e: Engine, fs: seq<seq<Dgram>>) {
    && (forall i :: 0 <= i < |e.slaves| && e.slaves[i].reachedOp ==> Asked(fs, e.slaves[i].station))
    && (!e.opCtrl && e.opCursor < |e.slaves| ==> Asked(fs, e.slaves[e.opCursor].station))
    && (forall i :: 0 <= i < |e.slaves| && Status(i) in e.appended ==> Asked(fs, e.slaves[i].station))
    && (e.phase == Operational ==> AllReached(e.slaves))
  }

  lemma AskedMore(e: Engine, fs: seq<seq<Dgram>>, f: seq<Dgram>)
    requires AskedSoFar(e, fs)
    ensures AskedSoFar(e, fs + [f])
  {
    hide AsksForOp, AllReached;
    assert forall s :: Asked(fs, s) ==> Asked(fs + [f], s);
  }

  lemma ProcessAsked(ranges: seq<(nat, nat)>, e: Engine, frame: seq<byte>, fs: seq<seq<Dgram>>)
    requires AskedSoFar(e, fs)
    ensures AskedSoFar(Process(ranges, e, frame), fs)
  {
    match ParseAt(frame, FRAME_HEADER)
    case None =>
    case Some((lrw, next)) =>
      var rs := TailReplies(e.appended, frame, next);
      TailIsDecoded(e.appended, frame, next);
      KindsOf(e.appended, frame, next);
      hide TailReplies, ParseAt, Asked, ApplyRanges, DecodeTail;
      var e1 := Gate(e.(image := ApplyRanges(e.image, ranges, lrw.data), lastWkc := lrw.wkc), lrw.wkc);
      ActionsAsked(e1, rs, fs);
  }

  lemma {:induction false} KindsOf(kinds: seq<Appended>, frame: seq<byte>, next: nat)
    ensures forall r <- TailReplies(kinds, frame, next) :: r.0 in kinds
    decreases |kinds|
  {
    hide ParseAt;
    if kinds != [] && next != 0 {
      match ParseAt(frame, next)
      case None =>
      case Some((dg, n2)) => KindsOf(kinds[1..], frame, n2);
    }
  }

  lemma ActionsAsked(e: Engine, rs: seq<(Appended, Reply)>, fs: seq<seq<Dgram>>)
    requires AskedSoFar(e, fs) && forall r <- rs :: r.0 in e.appended
    ensures AskedSoFar(OpGate(ApplyActions(e, Decoded(rs))), fs)
  {
    hide Asked, ApplyActions, DecodeAppended;
    var acts := Decoded(rs);
    var f := ApplyActions(e, acts);
    ActionsCore(e, acts);
    forall i | 0 <= i < |e.slaves|
      ensures f.slaves[i].station == e.slaves[i].station
      ensures f.slaves[i].reachedOp ==> Asked(fs, e.slaves[i].station)
      ensures e.slaves[i].reachedOp ==> f.slaves[i].reachedOp
    {
      ActionsFlags(e, acts, i);
      if OpReached(i) in acts {
        var k :| 0 <= k < |rs| && acts[k] == OpReached(i);
        DecodeMeaning(rs[k].0, rs[k].1, i);
        assert rs[k] in rs;
      }
    }
    if e.phase == Operational {
      AllStay(e, acts);
    }
  }

  lemma SendAsked(e: Engine, index: byte, accepted: bool, fs: seq<seq<Dgram>>)
    requires AskedSoFar(e, fs)
    ensures var b := Send(e, index, accepted); AskedSoFar(b.e, fs + [b.dgs])
  {
    hide AllReached;
    var b := Send(e, index, accepted);
    SendKeepsSlaves(e, index, accepted);
    AskedMore(e, fs, b.dgs);
    if e.phase == RequestingOp {
      RequestAsked(e, index, accepted, fs);
    } else {
      hide FollowerStation, Read, Zeros, AutoincAdp, Asked;
    }
  }

  lemma RequestAsked(e: Engine, index: byte, accepted: bool, fs: seq<seq<Dgram>>)
    requires e.phase == RequestingOp && AskedSoFar(e, fs + [Send(e, index, accepted).dgs])
    ensures var b := Send(e, index, accepted); AskedSoFar(b.e, fs + [b.dgs])
  {
    hide SkipReached, Read;
    var b, cur := Send(e, index, accepted), SkipReached(e.slaves, e.opCursor);
    if cur < |e.slaves| && (e.opCtrl || cur > e.opCursor) {
      assert b.dgs in fs + [b.dgs] && AsksForOp(b.dgs, e.slaves[cur].station);
    }
  }

  lemma TurnAsked(ranges: seq<(nat, nat)>, e: Engine, c: Cycle, fs: seq<seq<Dgram>>)
    requires AskedSoFar(e, fs)
    ensures AskedSoFar(Turn(ranges, e, c), fs + [TurnBuilt(ranges, e, c).dgs])
  {
    hide AskedSoFar, Send, Process, Receive, Taken;
    var e1 := e.(totalCycles := (e.totalCycles + 1) % 0x1_0000_0000);
    var f := BeginTick(ranges, e, c.ring).0;
    AskedAside(e, e1, fs);
    if e.outstanding {
      ReceiveIsProcess(ranges, e1, c.ring, RX_LEN);
      match Taken(e.expectedIndex, c.ring, RX_LEN) {
        case None => AskedAside(e1, f, fs);
        case Some(p) =>
          ProcessAsked(ranges, e1, p, fs);
          AskedAside(Process(ranges, e1, p), f, fs);
      }
    }
    AskedAside(f, f.(image := c.image), fs);
    SendAsked(f.(image := c.image), c.index, c.accepted, fs);
  }

  lemma AskedAside(e: Engine, f: Engine, fs: seq<seq<Dgram>>)
    requires AskedSoFar(e, fs)
    requires f == e.(totalCycles := f.totalCycles, image := f.image, outstanding := f.outstanding)
    ensures AskedSoFar(f, fs)
  {
  }

  lemma {:induction false} RunAsked(ranges: seq<(nat, nat)>, e: Engine, cs: seq<Cycle>, fs: seq<seq<Dgram>>)
    requires AskedSoFar(e, fs)
    ensures AskedSoFar(Run(ranges, e, cs), fs + Frames(ranges, e, cs))
    decreases |cs|
  {
    hide AskedSoFar, Turn, TurnBuilt;
    if cs == [] {
      assert fs + [] == fs;
    } else {
      var f := TurnBuilt(ranges, e, cs[0]).dgs;
      TurnAsked(ranges, e, cs[0], fs);
      RunAsked(ranges, Turn(ranges, e, cs[0]), cs[1..], fs + [f]);
      assert fs + ([f] + Frames(ranges, Turn(ranges, e, cs[0]), cs[1..]))
        == fs + [f] + Frames(ranges, Turn(ranges, e, cs[0]), cs[1..]);
    }
  }

  /** Over any run from the start: no slave counts as in OP, and the engine is not operational,
      unless a frame has asked that slave for it. */
  lemma AskedBeforeCounted(ranges: seq<(nat, nat)>, imageSize: nat, stations: seq<(word, word)>, refRingPos: word,
      cs: seq<Cycle>, i: nat)
    requires i < |stations|
    ensures var e0 := Start(imageSize, stations, refRingPos);
      var e := Run(ranges, e0, cs);
      && |e.slaves| == |stations| && e.slaves[i].station == stations[i].0 && e.slaves[i].ringPos == stations[i].1
      && (e.slaves[i].reachedOp || e.phase == Operational ==> Asked(Frames(ranges, e0, cs), stations[i].0))
  {
    hide Run, Frames, Asked;
    var e0 := Start(imageSize, stations, refRingPos);
    RunAsked(ranges, e0, cs, []);
    FramesFrom(ranges, e0, cs, |cs|);
    assert cs[..|cs|] == cs && [] + Frames(ranges, e0, cs) == Frames(ranges, e0, cs);
    var e := Run(ranges, e0, cs);
    assert e.slaves[i] in e.slaves;
  }
}
