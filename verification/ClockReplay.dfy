/** The clock registers of a slave after its bring-up (src/ethercat/dc.rs:230-379): what the
    SYNC unit finds in its own memory, before it is switched on and at the end. */
module ClockReplay {
  import opened Bytes
  import opened Config
  import opened Ecrt
  import opened Trace
  import opened PdoConfig
  import opened SlaveConfig
  import opened Replay
  import Clocks
  import FsmChange
  import FsmCoe
  import FsmDc
  import LrwRing

  // ---- Little-endian registers ----

  lemma WordFirst(w: word, rest: seq<byte>)
    ensures FromLe(Le16(w) + rest) == w + 0x1_0000 * FromLe(rest)
  {
    var s := Le16(w) + rest;
    assert s[1..] == [w / 0x100] + rest && s[1..][1..] == rest;
  }

  lemma Word16Read(w: word)
    ensures FromLe(Le16(w)) == w
  {
    WordFirst(w, []);
    assert Le16(w) + [] == Le16(w);
  }

  lemma DwordFirst(v: dword, rest: seq<byte>)
    ensures FromLe(Le32(v) + rest) == v + 0x1_0000_0000 * FromLe(rest)
  {
    hide Le16, FromLe;
    var lo, hi := v % 0x1_0000, v / 0x1_0000;
    assert Le32(v) + rest == Le16(lo) + (Le16(hi) + rest);
    WordFirst(lo, Le16(hi) + rest);
    WordFirst(hi, rest);
  }

  lemma Word32Read(v: dword)
    ensures FromLe(Le32(v)) == v
  {
    DwordFirst(v, []);
    assert Le32(v) + [] == Le32(v);
  }

  lemma Word64Read(v: qword)
    ensures FromLe(Clocks.Le64(v)) == v
  {
    hide Le32, FromLe;
    DwordFirst(v % 0x1_0000_0000, Le32(v / 0x1_0000_0000));
    Word32Read(v / 0x1_0000_0000);
  }

  // ---- The clock part of a plan ----

  /** Everything from the clock set-up on. */
  function ClockTail(j: Job, rd: FsmDc.Readings): seq<Event>
    requires rd.Valid()
  {
    ClockEvents(j, rd) + FsmChange.ChangeEvents(j.station, SAFEOP)
  }

  lemma PlanEndsWithClock(j: Job, rd: FsmDc.Readings)
    requires rd.Valid()
    ensures Plan(j, rd) == UpToFmmus(j) + ClockTail(j, rd)
  {
    hide UpToFmmus, ClockEvents, FsmChange.ChangeEvents;
  }

  /** Of `n` events the last five: cycles, start, activation, and the change of state. */
  lemma TailShape(j: Job, rd: FsmDc.Readings)
    requires rd.Valid() && j.slave.dc.Some?
    ensures var t, cfg := ClockTail(j, rd), j.slave.dc.value;
      var n := |t|;
      && n == (if j.dcRef.compensate then 10 else 7)
      && t[n - 5] == Wrote(j.station, 0x09A0, Le32(cfg.sync0Cycle) + Le32(cfg.sync1Cycle))
      && t[n - 4] == Wrote(j.station, 0x0990, Clocks.Le64(Clocks.CyclicStart(cfg, FsmDc.Epoch(j.dcRef, rd))))
      && t[n - 3] == Wrote(j.station, 0x0980, Le16(cfg.assignActivate))
      && AllMiss(t[n - 2..], 0x0900, 0x1000)
  {
    hide Clocks.CyclicStart, Clocks.Le64, Le32, Le16, Clocks.PropagationDelay, Clocks.NewOffset;
    var t := ClockTail(j, rd);
    assert t[|t| - 2..] == FsmChange.ChangeEvents(j.station, SAFEOP);
  }

  lemma FollowerShape(j: Job, rd: FsmDc.Readings)
    requires rd.Valid() && j.slave.dc.Some? && j.dcRef.compensate
    ensures var t := ClockTail(j, rd);
      && |t| == 10
      && t[2] == Wrote(j.station, 0x0928, Le32(Clocks.PropagationDelay(rd.refPorts, rd.folPorts)))
      && t[4] == Wrote(j.station, 0x0920, Clocks.Le64(Clocks.NewOffset(rd.sample)))
      && AllMiss(t[3..], 0x0928, 0x092C) && AllMiss(t[5..], 0x0920, 0x0928)
  {
    hide Clocks.CyclicStart, Clocks.PropagationDelay, Clocks.NewOffset, Le16, Le32;
  }

  // ---- What the slave holds ----

  /** The slave's SYNC unit: both cycle times, and the time of the first pulse. */
  predicate CyclesHeld(m: seq<byte>, cfg: DcCfg, start: qword)
    requires LrwRing.RAM <= |m|
  {
    FromLe(m[0x09A0..0x09A4]) == cfg.sync0Cycle && FromLe(m[0x09A4..0x09A8]) == cfg.sync1Cycle
    && FromLe(m[0x0990..0x0998]) == start
  }

  /** A follower's correction of its clock: offset and delay. */
  predicate CorrectionHeld(m: seq<byte>, offset: qword, delay: dword)
    requires LrwRing.RAM <= |m|
  {
    FromLe(m[0x0920..0x0928]) == offset && FromLe(m[0x0928..0x092C]) == delay
  }

  lemma CyclesRead(m: seq<byte>, cfg: DcCfg, start: qword)
    requires LrwRing.RAM <= |m|
    requires m[0x09A0..0x09A8] == Le32(cfg.sync0Cycle) + Le32(cfg.sync1Cycle) && m[0x0990..0x0998] == Clocks.Le64(start)
    ensures CyclesHeld(m, cfg, start)
  {
    hide Le32, Clocks.Le64, FromLe;
    var s := m[0x09A0..0x09A8];
    assert m[0x09A0..0x09A4] == s[..4] && m[0x09A4..0x09A8] == s[4..];
    Word32Read(cfg.sync0Cycle);
    Word32Read(cfg.sync1Cycle);
    Word64Read(start);
  }

  /** Cycles and start, for any further events that leave the SYNC registers alone. */
  lemma CyclesFrom(mem: seq<byte>, station: word, pre: seq<Event>, cfg: DcCfg, start: qword, rest: seq<Event>)
    requires LrwRing.RAM <= |mem| && AllMiss(rest, 0x0990, 0x0998) && AllMiss(rest, 0x09A0, 0x09A8)
    ensures var evs := pre + [Wrote(station, 0x09A0, Le32(cfg.sync0Cycle) + Le32(cfg.sync1Cycle)),
        Wrote(station, 0x0990, Clocks.Le64(start))] + rest;
      CyclesHeld(Played(mem, station, evs), cfg, start)
  {
    hide Played, Clocks.Le64, Le32, CyclesHeld;
    var cycles, first := Le32(cfg.sync0Cycle) + Le32(cfg.sync1Cycle), Clocks.Le64(start);
    var a, b := Wrote(station, 0x09A0, cycles), Wrote(station, 0x0990, first);
    var evs, k := pre + [a, b] + rest, |pre|;
    assert evs[k] == a && evs[k + 1] == b && evs[k + 1..] == [b] + rest && evs[k + 2..] == rest;
    assert AllMiss([b] + rest, 0x09A0, 0x09A8);
    Held(mem, station, evs, k, 0x09A0, cycles);
    Held(mem, station, evs, k + 1, 0x0990, first);
    CyclesRead(Played(mem, station, evs), cfg, start);
  }

  /** The time the start is computed from: a follower goes by the reference's clock. */
  function Now(j: Job, rd: FsmDc.Readings): qword { if j.dcRef.compensate then rd.sample.ref else rd.now }

  /** The plan up to its activation, and from there on. */
  lemma PlanAtActivation(j: Job, rd: FsmDc.Readings) returns (pre: seq<Event>)
    requires rd.Valid() && j.slave.dc.Some?
    ensures var cfg, plan := j.slave.dc.value, Plan(j, rd);
      var n := |plan| - 3;
      && n >= 2 && plan[n] == Wrote(j.station, 0x0980, Le16(cfg.assignActivate))
        && AllMiss(plan[n + 1..], 0x0900, 0x1000)
      && plan[..n] == pre + [Wrote(j.station, 0x09A0, Le32(cfg.sync0Cycle) + Le32(cfg.sync1Cycle)),
        Wrote(j.station, 0x0990, Clocks.Le64(Clocks.CyclicStart(cfg, Now(j, rd))))]
  {
    TailShape(j, rd);
    PlanEndsWithClock(j, rd);
    hide Plan, UpToFmmus, ClockTail, AllMiss, Clocks.CyclicStart, Clocks.Le64, Le32, Le16;
    pre := UpToFmmus(j) + ClockTail(j, rd)[..|ClockTail(j, rd)| - 5];
    FromEnd(UpToFmmus(j), ClockTail(j, rd), Plan(j, rd));
  }

  lemma FromEnd(u: seq<Event>, t: seq<Event>, plan: seq<Event>)
    requires plan == u + t && |t| >= 5
    ensures var n, k := |t|, |plan|;
      && k >= 5 && plan[k - 3] == t[n - 3] && plan[k - 3 + 1..] == t[n - 2..]
      && plan[..k - 3] == u + t[..n - 5] + [t[n - 5], t[n - 4]]
  {
  }

  lemma CorrectionFrom(mem: seq<byte>, j: Job, rd: FsmDc.Readings, cut: nat)
    requires rd.Valid() && j.slave.dc.Some? && j.dcRef.compensate && LrwRing.RAM <= |mem| && 5 <= cut <= 10
    ensures CorrectionHeld(Played(mem, j.station, UpToFmmus(j) + ClockTail(j, rd)[..cut]),
      Clocks.NewOffset(rd.sample), Clocks.PropagationDelay(rd.refPorts, rd.folPorts))
  {
    hide Played, UpToFmmus, ClockTail, Clocks.NewOffset, Clocks.PropagationDelay, Clocks.Le64, Le32, FromLe, AllMiss;
    FollowerShape(j, rd);
    var t, u := ClockTail(j, rd), UpToFmmus(j);
    var evs, offset, delay := u + t[..cut], Clocks.NewOffset(rd.sample),
      Clocks.PropagationDelay(rd.refPorts, rd.folPorts);
    assert evs[|u| + 2] == t[2] && evs[|u| + 4] == t[4];
    MissCut(u, t, cut, 3, 0x0928, 0x092C);
    MissCut(u, t, cut, 5, 0x0920, 0x0928);
    Held(mem, j.station, evs, |u| + 2, 0x0928, Le32(delay));
    Held(mem, j.station, evs, |u| + 4, 0x0920, Clocks.Le64(offset));
    Word32Read(delay);
    Word64Read(offset);
  }

  lemma MissCut(u: seq<Event>, t: seq<Event>, cut: nat, k: nat, lo: nat, hi: nat)
    requires k <= cut <= |t| && AllMiss(t[k..], lo, hi)
    ensures AllMiss((u + t[..cut])[|u| + k..], lo, hi)
  {
    assert (u + t[..cut])[|u| + k..] == t[k..][..cut - k];
  }

  /** After the bring-up of a slave with a clock: both cycle times, the first pulse on the time
      computed, the SYNC unit switched on as configured; and a follower corrects its clock by
      the offset and delay measured. */
  lemma ClockConfigured(mem: seq<byte>, j: Job, rd: FsmDc.Readings)
    requires rd.Valid() && j.slave.dc.Some? && LrwRing.RAM <= |mem|
    ensures var m, cfg := Played(mem, j.station, Plan(j, rd)), j.slave.dc.value;
      && CyclesHeld(m, cfg, Clocks.CyclicStart(cfg, Now(j, rd)))
      && FromLe(m[0x0980..0x0982]) == cfg.assignActivate
      && (j.dcRef.compensate ==>
        CorrectionHeld(m, Clocks.NewOffset(rd.sample), Clocks.PropagationDelay(rd.refPorts, rd.folPorts)))
  {
    hide *;
    var pre := PlanAtActivation(j, rd);
    SwitchedOn(mem, j.station, Plan(j, rd), j.slave.dc.value, Clocks.CyclicStart(j.slave.dc.value, Now(j, rd)), pre);
    if j.dcRef.compensate {
      CorrectionAtEnd(mem, j, rd);
    }
  }

  lemma CorrectionAtEnd(mem: seq<byte>, j: Job, rd: FsmDc.Readings)
    requires rd.Valid() && j.slave.dc.Some? && j.dcRef.compensate && LrwRing.RAM <= |mem|
    ensures CorrectionHeld(Played(mem, j.station, Plan(j, rd)), Clocks.NewOffset(rd.sample),
      Clocks.PropagationDelay(rd.refPorts, rd.folPorts))
  {
    hide CorrectionHeld, Plan, Played, UpToFmmus, ClockTail, Clocks.NewOffset, Clocks.PropagationDelay;
    FollowerShape(j, rd);
    PlanEndsWithClock(j, rd);
    assert ClockTail(j, rd)[..10] == ClockTail(j, rd);
    CorrectionFrom(mem, j, rd, 10);
  }

  lemma CorrectionBefore(mem: seq<byte>, j: Job, rd: FsmDc.Readings)
    requires rd.Valid() && j.slave.dc.Some? && j.dcRef.compensate && LrwRing.RAM <= |mem|
    ensures |Plan(j, rd)| >= 3
    ensures CorrectionHeld(Played(mem, j.station, Plan(j, rd)[..|Plan(j, rd)| - 3]), Clocks.NewOffset(rd.sample),
      Clocks.PropagationDelay(rd.refPorts, rd.folPorts))
  {
    hide CorrectionHeld, Plan, Played, UpToFmmus, ClockTail, Clocks.NewOffset, Clocks.PropagationDelay;
    FollowerShape(j, rd);
    PlanEndsWithClock(j, rd);
    assert Plan(j, rd)[..|Plan(j, rd)| - 3] == UpToFmmus(j) + ClockTail(j, rd)[..7];
    CorrectionFrom(mem, j, rd, 7);
  }

  /** Cycles, start and activation, and nothing that touches them afterwards. */
  lemma SwitchedOn(mem: seq<byte>, station: word, plan: seq<Event>, cfg: DcCfg, start: qword, pre: seq<Event>)
    requires LrwRing.RAM <= |mem| && |plan| >= 5
    requires var n := |plan| - 3;
      && plan[n] == Wrote(station, 0x0980, Le16(cfg.assignActivate)) && AllMiss(plan[n + 1..], 0x0900, 0x1000)
      && plan[..n] == pre + [Wrote(station, 0x09A0, Le32(cfg.sync0Cycle) + Le32(cfg.sync1Cycle)),
        Wrote(station, 0x0990, Clocks.Le64(start))]
    ensures var m := Played(mem, station, plan);
      && CyclesHeld(m, cfg, start) && FromLe(m[0x0980..0x0982]) == cfg.assignActivate
  {
    hide Played, CyclesHeld, Clocks.Le64, Le32, Le16, FromLe, AllMiss;
    var n := |plan| - 3;
    var e, rest := plan[n], plan[n + 1..];
    AroundSwitch(e, rest, |Le16(cfg.assignActivate)|);
    Held(mem, station, plan, n, 0x0980, Le16(cfg.assignActivate));
    Word16Read(cfg.assignActivate);
    assert plan == plan[..n] + ([e] + rest);
    CyclesFrom(mem, station, pre, cfg, start, [e] + rest);
  }

  lemma AroundSwitch(e: Event, rest: seq<Event>, n: nat)
    requires e.Wrote? && e.ado == 0x0980 && |e.data| == n == 2 && AllMiss(rest, 0x0900, 0x1000)
    ensures AllMiss([e] + rest, 0x0990, 0x0998) && AllMiss([e] + rest, 0x09A0, 0x09A8)
    ensures AllMiss(rest, 0x0980, 0x0980 + n)
  {
    MissWithin(rest, 0x0990, 0x0998);
    MissWithin(rest, 0x09A0, 0x09A8);
    MissWithin(rest, 0x0980, 0x0982);
  }

  lemma MissWithin(evs: seq<Event>, lo: nat, hi: nat)
    requires 0x0900 <= lo <= hi <= 0x1000 && AllMiss(evs, 0x0900, 0x1000)
    ensures AllMiss(evs, lo, hi)
  {
    forall ev | ev in evs
      ensures Misses(ev, lo, hi)
    {
      assert Misses(ev, 0x0900, 0x1000);
    }
  }

  /** The SYNC unit is off from the start of the bring-up on, until nothing but its activation
      and the last change of state remain; by then all it goes by is in place. */
  lemma ActivatedLast(mem: seq<byte>, j: Job, rd: FsmDc.Readings)
    requires rd.Valid() && j.slave.dc.Some? && LrwRing.RAM <= |mem|
    requires MailboxInRam(j) && SmsOk(j.slave.sms) && |j.slave.fmmus| <= 16
    ensures var plan, cfg := Plan(j, rd), j.slave.dc.value;
      var n := |plan| - 3;
      && n >= 2 && plan[n].Wrote? && plan[n].station == j.station && plan[n].ado == 0x0980
      && FromLe(plan[n].data) == cfg.assignActivate
      && var m := Played(mem, j.station, plan[..n]);
      && FromLe(m[0x0980..0x0982]) == 0
      && CyclesHeld(m, cfg, Clocks.CyclicStart(cfg, Now(j, rd)))
      && (j.dcRef.compensate ==>
        CorrectionHeld(m, Clocks.NewOffset(rd.sample), Clocks.PropagationDelay(rd.refPorts, rd.folPorts)))
  {
    hide CorrectionHeld, Plan, Played, CyclesHeld, Clocks.CyclicStart, Clocks.NewOffset, Clocks.PropagationDelay,
      FromLe, Clocks.Le64, Le32, Le16;
    var cfg, plan := j.slave.dc.value, Plan(j, rd);
    var pre := PlanAtActivation(j, rd);
    OffUntilActivated(mem, j, rd);
    Word16Read(cfg.assignActivate);
    if j.dcRef.compensate {
      CorrectionBefore(mem, j, rd);
    }
    var n := |plan| - 3;
    assert plan[..n] == plan[..n] + [];
    CyclesFrom(mem, j.station, pre, cfg, Clocks.CyclicStart(cfg, Now(j, rd)), []);
  }

  /** Between the first switching off and the activation nothing touches the switch. */
  lemma OffUntilActivated(mem: seq<byte>, j: Job, rd: FsmDc.Readings)
    requires rd.Valid() && j.slave.dc.Some? && LrwRing.RAM <= |mem|
    requires MailboxInRam(j) && SmsOk(j.slave.sms) && |j.slave.fmmus| <= 16
    ensures var n := |Plan(j, rd)| - 3; n >= 2 && FromLe(Played(mem, j.station, Plan(j, rd)[..n])[0x0980..0x0982]) == 0
  {
    hide Plan, Played, AllMiss, FromLe, Le16;
    OffReadsZero();
    SwitchMissed(j, rd);
    Held(mem, j.station, Plan(j, rd)[..|Plan(j, rd)| - 3], 1, 0x0980, [0, 0]);
  }

  lemma OffReadsZero()
    ensures FromLe([0, 0]) == 0
  {
    Word16Read(0);
    assert Le16(0) == [0, 0];
  }

  lemma SwitchMissed(j: Job, rd: FsmDc.Readings)
    requires rd.Valid() && j.slave.dc.Some? && MailboxInRam(j) && SmsOk(j.slave.sms) && |j.slave.fmmus| <= 16
    ensures var n := |Plan(j, rd)| - 3;
      && n >= 2 && Plan(j, rd)[..n][1] == Wrote(j.station, 0x0980, [0, 0])
      && AllMiss(Plan(j, rd)[..n][2..], 0x0980, 0x0982)
  {
    hide Plan, UpToFmmus, ClockTail, SmsOk, AllMiss;
    PlanEndsWithClock(j, rd);
    EarlyMissed(j);
    var k := |ClockTail(j, rd)| - 3;
    ClockBefore(j, rd);
    var plan, u, t := Plan(j, rd), UpToFmmus(j), ClockTail(j, rd)[..k];
    assert plan[..|plan| - 3] == u + t && (u + t)[2..] == u[2..] + t;
    MissConcat(u[2..], t, 0x0980, 0x0982);
  }

  lemma ClockBefore(j: Job, rd: FsmDc.Readings)
    requires rd.Valid() && j.slave.dc.Some?
    ensures |ClockTail(j, rd)| >= 5 && AllMiss(ClockTail(j, rd)[..|ClockTail(j, rd)| - 3], 0x0980, 0x0982)
  {
    hide Clocks.CyclicStart, Clocks.PropagationDelay, Clocks.NewOffset, Le16, Le32;
  }

  /** What follows the first two writes, up to the clock. */
  function Middle(j: Job): seq<Event> {
    Opening(j)[2..] + FsmChange.ChangeEvents(j.station, PREOP) + QueueEvents(j, InitRequests(j.slave.sdoInit))
    + MapEvents(j, j.slave.sms) + AssignEvents(j, j.slave.sms) + SmEvents(j, j.slave.sms) + Watchdogs(j)
    + FmmuEvents(j, j.slave.fmmus)
  }

  lemma EarlyMissed(j: Job)
    requires MailboxInRam(j) && SmsOk(j.slave.sms) && |j.slave.fmmus| <= 16
    ensures |UpToFmmus(j)| >= 2 && UpToFmmus(j)[1] == Wrote(j.station, 0x0980, [0, 0])
    ensures AllMiss(UpToFmmus(j)[2..], 0x0980, 0x0982)
  {
    hide SmsOk, AllMiss, FsmChange.ChangeEvents, QueueEvents, MapEvents, AssignEvents, SmEvents, Watchdogs, FmmuEvents,
      Opening;
    Switch(j);
    MiddleMissed(j);
    assert Opening(j) == Opening(j)[..2] + Opening(j)[2..];
    assert UpToFmmus(j) == Opening(j)[..2] + Middle(j);
  }

  lemma Switch(j: Job)
    ensures Opening(j)[1] == Wrote(j.station, 0x0980, [0, 0])
  {
  }

  lemma MiddleMissed(j: Job)
    requires MailboxInRam(j) && SmsOk(j.slave.sms) && |j.slave.fmmus| <= 16
    ensures AllMiss(Middle(j), 0x0980, 0x0982)
  {
    hide PushAll, InitRequests, FsmCoe.SeqEvents, MapEvents, AssignEvents, SmEvents, FmmuEvents;
    assert AllMiss(Opening(j)[2..], 0x0980, 0x0982);
    ChangeMisses(j.station, PREOP, 0x0980, 0x0982);
    QueueMisses(j, PushAll(InitRequests(j.slave.sdoInit)), 0x0980, 0x0982);
    MapMisses(j, j.slave.sms, 0x0980, 0x0982);
    AssignMisses(j, j.slave.sms, 0x0980, 0x0982);
    SmsMiss(j, j.slave.sms, 0x0980, 0x0982);
    assert AllMiss(Watchdogs(j), 0x0980, 0x0982);
    FmmusMiss(j, j.slave.fmmus, 0x0980, 0x0982);
  }

  /** The first pulse falls on the next cycle boundary past `now` and the margin, plus the
      shift, wherever that is a 64-bit time; elsewhere it is in the past. */
  predicate PulseDue(m: seq<byte>, cfg: DcCfg, now: qword)
    requires LrwRing.RAM <= |m|
  {
    var s, c := FromLe(m[0x0990..0x0998]), if cfg.sync0Cycle == 0 then 1 else cfg.sync0Cycle;
    if Clocks.StartFits(cfg, now) then
      var b := s - cfg.sync0Shift;
      b % c == 0 && now + 100_000_000 < b <= now + 100_000_000 + c
    else s < now
  }

  lemma PulseFromStart(m: seq<byte>, cfg: DcCfg, now: qword)
    requires LrwRing.RAM <= |m| && CyclesHeld(m, cfg, Clocks.CyclicStart(cfg, now))
    ensures PulseDue(m, cfg, now)
  {
    hide Clocks.CyclicStart, Clocks.StartFits, FromLe;
    Clocks.StartIsNextBoundary(cfg, now, 0);
  }

  lemma ReadsReference(m: seq<byte>, s: Clocks.Sample, delay: dword, local: qword)
    requires LrwRing.RAM <= |m| && CorrectionHeld(m, Clocks.NewOffset(s), delay)
    requires s.fol == Clocks.SystemTime(local, s.off)
    ensures (local + FromLe(m[0x0920..0x0928])) % 0x1_0000_0000_0000_0000 == s.ref
  {
    hide Clocks.NewOffset, FromLe;
    Clocks.OffsetAligns(s, local);
  }

  /** What that means for a follower: its clock reads the reference's time at the instant the
      two were sampled, and its first pulse falls on a boundary of the reference's time. */
  lemma FollowerRuns(mem: seq<byte>, j: Job, rd: FsmDc.Readings, local: qword)
    requires rd.Valid() && j.slave.dc.Some? && j.dcRef.compensate && LrwRing.RAM <= |mem|
    requires rd.sample.fol == Clocks.SystemTime(local, rd.sample.off)
    ensures var m := Played(mem, j.station, Plan(j, rd));
      && (local + FromLe(m[0x0920..0x0928])) % 0x1_0000_0000_0000_0000 == rd.sample.ref
      && PulseDue(m, j.slave.dc.value, rd.sample.ref)
  {
    hide Plan, Played, CyclesHeld, CorrectionHeld, PulseDue, Clocks.CyclicStart, Clocks.NewOffset,
      Clocks.PropagationDelay, Clocks.SystemTime, FromLe;
    ClockConfigured(mem, j, rd);
    var m := Played(mem, j.station, Plan(j, rd));
    PulseFromStart(m, j.slave.dc.value, rd.sample.ref);
    ReadsReference(m, rd.sample, Clocks.PropagationDelay(rd.refPorts, rd.folPorts), local);
  }
}
