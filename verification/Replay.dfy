/** What a slave holds after its bring-up: the plan of `SlaveConfig` replayed on the slave's
    memory and object dictionary. */
module Replay {
  import opened Bytes
  import opened Config
  import opened Ecrt
  import opened EscPages
  import opened Trace
  import opened PdoConfig
  import opened SlaveConfig
  import Clocks
  import Coe
  import FsmChange
  import FsmCoe
  import FsmDc
  import LrwRing
  import PreOp

  /** The slave's memory after one event. */
  function Take(mem: seq<byte>, station: word, ev: Event): (r: seq<byte>)
    ensures |r| == |mem|
  {
    match ev
    case Wrote(s, ado, data) => if s == station then Overlay(mem, ado, data) else mem
    case Broadcast(ado, data) => Overlay(mem, ado, data)
    case _ => mem
  }

  function Played(mem: seq<byte>, station: word, evs: seq<Event>): (r: seq<byte>)
    ensures |r| == |mem|
  {
    if evs == [] then mem else Take(Played(mem, station, evs[..|evs| - 1]), station, evs[|evs| - 1])
  }

  lemma {:induction false} PlayedConcat(mem: seq<byte>, station: word, a: seq<Event>, b: seq<Event>)
    ensures Played(mem, station, a + b) == Played(Played(mem, station, a), station, b)
    decreases |b|
  {
    if b == [] {
      assert a + b == a;
    } else {
      assert (a + b)[..|a + b| - 1] == a + b[..|b| - 1];
      PlayedConcat(mem, station, a, b[..|b| - 1]);
    }
  }

  // ---- Events that leave a stretch of memory alone ----

  predicate Misses(ev: Event, lo: nat, hi: nat) {
    match ev
    case Wrote(_, ado, data) => ado + |data| <= lo || hi <= ado
    case Broadcast(ado, data) => ado + |data| <= lo || hi <= ado
    case _ => true
  }

  predicate AllMiss(evs: seq<Event>, lo: nat, hi: nat) { forall ev <- evs :: Misses(ev, lo, hi) }

  lemma {:induction false} MissedKeeps(mem: seq<byte>, station: word, evs: seq<Event>, lo: nat, hi: nat)
    requires lo <= hi <= |mem| && AllMiss(evs, lo, hi)
    ensures Played(mem, station, evs)[lo..hi] == mem[lo..hi]
  {
    if evs == [] {
    } else {
      var n := |evs| - 1;
      assert forall ev <- evs[..n] :: ev in evs;
      MissedKeeps(mem, station, evs[..n], lo, hi);
      assert evs[n] in evs;
      var m := Played(mem, station, evs[..n]);
      assert Take(m, station, evs[n])[lo..hi] == m[lo..hi];
    }
  }

  lemma MissConcat(a: seq<Event>, b: seq<Event>, lo: nat, hi: nat)
    requires AllMiss(a, lo, hi) && AllMiss(b, lo, hi)
    ensures AllMiss(a + b, lo, hi)
  {
  }

  /** The mailbox window lies in process RAM. */
  predicate MailboxInRam(j: Job) { LrwRing.RAM <= j.mbox.rxOffset }

  lemma {:induction false} QueueMisses(j: Job, ops: seq<Request>, lo: nat, hi: nat)
    requires MailboxInRam(j) && hi <= LrwRing.RAM
    ensures AllMiss(FsmCoe.SeqEvents(j.mbox, ops), lo, hi)
  {
    if ops == [] {
    } else {
      hide Coe.MailboxWrite;
      QueueMisses(j, ops[..|ops| - 1], lo, hi);
    }
  }

  lemma {:induction false} PdosMiss(j: Job, pdos: seq<PdoCfg>, lo: nat, hi: nat)
    requires MailboxInRam(j) && hi <= LrwRing.RAM
    ensures AllMiss(PdoEvents(j, pdos), lo, hi)
  {
    if pdos == [] {
    } else {
      hide PushAll, MappingRequests;
      PdosMiss(j, pdos[..|pdos| - 1], lo, hi);
      QueueMisses(j, PushAll(MappingRequests(pdos[|pdos| - 1])), lo, hi);
    }
  }

  lemma {:induction false} MapMisses(j: Job, sms: seq<SmCfg>, lo: nat, hi: nat)
    requires MailboxInRam(j) && hi <= LrwRing.RAM
    ensures AllMiss(MapEvents(j, sms), lo, hi)
  {
    if sms == [] {
    } else {
      MapMisses(j, sms[..|sms| - 1], lo, hi);
      PdosMiss(j, sms[|sms| - 1].pdos, lo, hi);
    }
  }

  lemma {:induction false} AssignMisses(j: Job, sms: seq<SmCfg>, lo: nat, hi: nat)
    requires MailboxInRam(j) && hi <= LrwRing.RAM
    ensures AllMiss(AssignEvents(j, sms), lo, hi)
  {
    if sms == [] {
    } else {
      hide PushAll, AssignRequests;
      AssignMisses(j, sms[..|sms| - 1], lo, hi);
      QueueMisses(j, PushAll(AssignRequests(sms[|sms| - 1].index, sms[|sms| - 1].pdos)), lo, hi);
    }
  }

  lemma {:induction false} SmsMiss(j: Job, sms: seq<SmCfg>, lo: nat, hi: nat)
    requires hi <= SM0 || forall sm <- sms :: SmAddress(sm) + SM_PAGE <= lo || hi <= SmAddress(sm)
    ensures AllMiss(SmEvents(j, sms), lo, hi)
  {
    if sms == [] {
    } else {
      assert forall sm <- sms[..|sms| - 1] :: sm in sms;
      SmsMiss(j, sms[..|sms| - 1], lo, hi);
      assert sms[|sms| - 1] in sms;
    }
  }

  lemma {:induction false} FmmusMiss(j: Job, fmmus: seq<FmmuCfg>, lo: nat, hi: nat)
    requires |fmmus| <= 16 && (hi <= FMMU_BASE || FMMU_BASE + FMMU_PAGE * |fmmus| <= lo)
    ensures AllMiss(FmmuEvents(j, fmmus), lo, hi)
  {
    if fmmus == [] {
    } else {
      FmmusMiss(j, fmmus[..|fmmus| - 1], lo, hi);
    }
  }

  /** Clock set-up stays within the DC registers. */
  lemma ClockMisses(j: Job, rd: FsmDc.Readings, lo: nat, hi: nat)
    requires rd.Valid() && hi <= DC_RECV_TIME
    ensures AllMiss(ClockEvents(j, rd), lo, hi)
  {
    hide Clocks.CyclicStart, Clocks.NewOffset, Clocks.PropagationDelay;
  }

  lemma ChangeMisses(station: word, target: byte, lo: nat, hi: nat)
    requires hi <= AL_CONTROL || AL_CONTROL + 2 <= lo
    ensures AllMiss(FsmChange.ChangeEvents(station, target), lo, hi)
  {
  }

  // ---- FMMU pages ----

  lemma OverlayAt(mem: seq<byte>, at: nat, data: seq<byte>)
    requires at + |data| <= |mem|
    ensures Overlay(mem, at, data)[at..at + |data|] == data
  {
  }

  lemma {:induction false} FmmuPagesHeld(mem: seq<byte>, j: Job, fmmus: seq<FmmuCfg>, k: nat)
    requires k < |fmmus| <= 16 && LrwRing.RAM <= |mem|
    ensures var at := FMMU_BASE + FMMU_PAGE * k;
      Played(mem, j.station, FmmuEvents(j, fmmus))[at..at + FMMU_PAGE] == FmmuPage(fmmus[k])
  {
    hide Played, FmmuEvents, FmmuPage, Overlay;
    var n, at := |fmmus| - 1, FMMU_BASE + FMMU_PAGE * k;
    LastPage(mem, j, fmmus);
    var m := Played(mem, j.station, FmmuEvents(j, fmmus[..n]));
    var page, last := FmmuPage(fmmus[n]), FMMU_BASE + FMMU_PAGE * n;
    if k == n {
      OverlayAt(m, at, page);
    } else {
      FmmuPagesHeld(mem, j, fmmus[..n], k);
      assert at + FMMU_PAGE <= last <= last + |page| <= |mem|;
      OverlayPast(m, last, page, at, at + FMMU_PAGE);
    }
  }

  lemma LastPage(mem: seq<byte>, j: Job, fmmus: seq<FmmuCfg>)
    requires 0 < |fmmus| <= 16
    ensures var n := |fmmus| - 1;
      Played(mem, j.station, FmmuEvents(j, fmmus))
      == Overlay(Played(mem, j.station, FmmuEvents(j, fmmus[..n])), FMMU_BASE + FMMU_PAGE * n, FmmuPage(fmmus[n]))
  {
    hide FmmuPage;
    var n := |fmmus| - 1;
    assert FmmuEvents(j, fmmus)[..|FmmuEvents(j, fmmus)| - 1] == FmmuEvents(j, fmmus[..n]);
    assert FmmuAddress(n) == FMMU_BASE + FMMU_PAGE * n;
  }

  lemma OverlayPast(mem: seq<byte>, at: nat, data: seq<byte>, lo: nat, hi: nat)
    requires lo <= hi <= |mem| && (hi <= at || at + |data| <= lo)
    ensures Overlay(mem, at, data)[lo..hi] == mem[lo..hi]
  {
  }

  /** What `b` leaves in a stretch that `c` misses. */
  lemma ThreeParts(mem: seq<byte>, station: word, plan: seq<Event>, a: seq<Event>, b: seq<Event>, c: seq<Event>,
      lo: nat, hi: nat)
    requires plan == a + b + c && AllMiss(c, lo, hi) && lo <= hi <= |mem|
    ensures Played(mem, station, plan)[lo..hi] == Played(Played(mem, station, a), station, b)[lo..hi]
  {
    PlayedConcat(mem, station, a + b, c);
    PlayedConcat(mem, station, a, b);
    MissedKeeps(Played(mem, station, a + b), station, c, lo, hi);
  }

  // ---- A write that nothing after it touches ----

  lemma Held(mem: seq<byte>, station: word, evs: seq<Event>, k: nat, at: nat, data: seq<byte>)
    requires k < |evs| && evs[k].Wrote? && evs[k].station == station && evs[k].ado == at && evs[k].data == data
    requires at + |data| <= |mem| && AllMiss(evs[k + 1..], at, at + |data|)
    ensures Played(mem, station, evs)[at..at + |data|] == data
  {
    hide Played, AllMiss, Overlay;
    var a, e, c := evs[..k], evs[k], evs[k + 1..];
    assert evs == a + [e] + c;
    ThreeParts(mem, station, evs, a, [e], c, at, at + |data|);
    OneTaken(Played(mem, station, a), station, e);
    OverlayAt(Played(mem, station, a), at, data);
  }

  lemma OneTaken(mem: seq<byte>, station: word, e: Event)
    ensures Played(mem, station, [e]) == Take(mem, station, e)
  {
    assert [e][..0] == [];
  }

  /** Everything after the FMMU writes leaves the FMMU channels alone. */
  lemma TailMisses(j: Job, rd: FsmDc.Readings, lo: nat, hi: nat)
    requires rd.Valid() && AL_CONTROL + 2 <= lo && hi <= DC_RECV_TIME
    ensures AllMiss(ClockEvents(j, rd) + FsmChange.ChangeEvents(j.station, SAFEOP), lo, hi)
  {
    ClockMisses(j, rd, lo, hi);
    ChangeMisses(j.station, SAFEOP, lo, hi);
    MissConcat(ClockEvents(j, rd), FsmChange.ChangeEvents(j.station, SAFEOP), lo, hi);
  }

  lemma PlanSplit(j: Job, rd: FsmDc.Readings)
    requires rd.Valid()
    ensures Plan(j, rd) == UpToWatchdogs(j) + FmmuEvents(j,
      j.slave.fmmus) + (ClockEvents(j, rd) + FsmChange.ChangeEvents(j.station, SAFEOP))
  {
    hide UpToWatchdogs, FmmuEvents, ClockEvents, FsmChange.ChangeEvents;
    assert Plan(j, rd) == UpToWatchdogs(j) + FmmuEvents(j, j.slave.fmmus) + ClockEvents(j,
      rd) + FsmChange.ChangeEvents(j.station, SAFEOP);
  }

  /** The sixteen channels lie between the AL registers and the sync managers. */
  lemma ChannelAddress(k: nat, at: nat, n: nat)
    requires k < 16 && LrwRing.RAM <= n && at == FMMU_BASE + FMMU_PAGE * k
    ensures AL_CONTROL + 2 <= at && at + FMMU_PAGE <= SM0 && at + FMMU_PAGE <= DC_RECV_TIME && at + FMMU_PAGE <= n
  {
  }

  /** After the bring-up each FMMU channel holds the page of its mapping, and the slave decodes
      just that mapping. */
  lemma FmmusConfigured(mem: seq<byte>, j: Job, rd: FsmDc.Readings, k: nat, at: nat)
    requires rd.Valid() && k < |j.slave.fmmus| <= 16 && LrwRing.RAM <= |mem| && at == 0x0600 + 16 * k
    ensures Played(mem, j.station, Plan(j, rd))[at..at + FMMU_PAGE] == FmmuPage(j.slave.fmmus[k])
    ensures DecodeFmmu(Played(mem, j.station, Plan(j, rd))[at..at + FMMU_PAGE]) == Some(j.slave.fmmus[k])
  {
    assert FMMU_PAGE == 16 && FMMU_BASE == 0x600;
    hide *;
    var plan, a, b, tail := Plan(j, rd), UpToWatchdogs(j), FmmuEvents(j, j.slave.fmmus),
      ClockEvents(j, rd) + FsmChange.ChangeEvents(j.station, SAFEOP);
    var hi := at + FMMU_PAGE;
    ChannelAddress(k, at, |mem|);
    PlanSplit(j, rd);
    FmmuRoundTrip(j.slave.fmmus[k]);
    TailMisses(j, rd, at, hi);
    FmmuPagesHeld(Played(mem, j.station, a), j, j.slave.fmmus, k);
    ThreeParts(mem, j.station, plan, a, b, tail, at, hi);
  }

  /** What follows the first write, up to the FMMU pages. */
  function AfterClear(j: Job): seq<Event> {
    Opening(j)[1..] + FsmChange.ChangeEvents(j.station, PREOP) + QueueEvents(j, InitRequests(j.slave.sdoInit))
    + MapEvents(j, j.slave.sms) + AssignEvents(j, j.slave.sms) + SmEvents(j, j.slave.sms) + Watchdogs(j)
  }

  lemma WatchdogsSplit(j: Job)
    ensures UpToWatchdogs(j) == [Write(j, FMMU_BASE, Zeros(48))] + AfterClear(j)
  {
    hide FsmChange.ChangeEvents, QueueEvents, MapEvents, AssignEvents, SmEvents, Watchdogs;
    assert Opening(j) == [Write(j, FMMU_BASE, Zeros(48))] + Opening(j)[1..];
  }

  /** Between the clear and the pages nothing touches the FMMU channels. */
  lemma AfterClearMisses(j: Job, lo: nat, hi: nat)
    requires MailboxInRam(j) && FMMU_BASE <= lo <= hi <= SM0
    ensures AllMiss(AfterClear(j), lo, hi)
  {
    hide PushAll, InitRequests, FsmCoe.SeqEvents, MapEvents, AssignEvents, SmEvents;
    assert AllMiss(Opening(j)[1..], lo, hi);
    ChangeMisses(j.station, PREOP, lo, hi);
    QueueMisses(j, PushAll(InitRequests(j.slave.sdoInit)), lo, hi);
    MapMisses(j, j.slave.sms, lo, hi);
    AssignMisses(j, j.slave.sms, lo, hi);
    SmsMiss(j, j.slave.sms, lo, hi);
    assert AllMiss(Watchdogs(j), lo, hi);
  }

  lemma ChannelPast(k: nat, at: nat, n: nat)
    requires n <= k && at == FMMU_BASE + FMMU_PAGE * k
    ensures FMMU_BASE + FMMU_PAGE * n <= at
  {
  }

  /** A channel past the configured ones: cleared if it is among the first three, and left
      as it was otherwise. */
  lemma OtherChannels(mem: seq<byte>, j: Job, rd: FsmDc.Readings, k: nat, at: nat)
    requires rd.Valid() && MailboxInRam(j) && |j.slave.fmmus| <= k < 16 && LrwRing.RAM <= |mem|
      && at == 0x0600 + 16 * k
    ensures Played(mem, j.station, Plan(j, rd))[at..at + FMMU_PAGE] == if k < 3 then Zeros(FMMU_PAGE)
      else mem[at..at + FMMU_PAGE]
  {
    assert FMMU_PAGE == 16 && FMMU_BASE == 0x600;
    hide *;
    var hi := at + FMMU_PAGE;
    ChannelAddress(k, at, |mem|);
    ChannelPast(k, at, |j.slave.fmmus|);
    PlanAfterClear(j, rd);
    RestMisses(j, rd, at, hi);
    ClearedPage(mem, j, at, k);
    ThreeParts(mem, j.station, Plan(j, rd), [], Clearing(j), AfterClearing(j, rd), at, hi);
  }

  /** The first write of a bring-up: three FMMU channels off. */
  function Clearing(j: Job): seq<Event> { [Write(j, FMMU_BASE, Zeros(48))] }

  function AfterClearing(j: Job, rd: FsmDc.Readings): seq<Event>
    requires rd.Valid()
  {
    AfterClear(j) + FmmuEvents(j, j.slave.fmmus) + (ClockEvents(j, rd) + FsmChange.ChangeEvents(j.station, SAFEOP))
  }

  lemma PlanAfterClear(j: Job, rd: FsmDc.Readings)
    requires rd.Valid()
    ensures Plan(j, rd) == [] + Clearing(j) + AfterClearing(j, rd)
  {
    hide Plan, UpToWatchdogs, AfterClear, FmmuEvents, ClockEvents, FsmChange.ChangeEvents, Write, Zeros;
    PlanSplit(j, rd);
    WatchdogsSplit(j);
  }

  lemma RestMisses(j: Job, rd: FsmDc.Readings, lo: nat, hi: nat)
    requires rd.Valid() && MailboxInRam(j) && |j.slave.fmmus| <= 16
      && FMMU_BASE + FMMU_PAGE * |j.slave.fmmus| <= lo <= hi <= SM0
    ensures AllMiss(AfterClearing(j, rd), lo, hi)
  {
    AfterClearMisses(j, lo, hi);
    FmmusMiss(j, j.slave.fmmus, lo, hi);
    TailMisses(j, rd, lo, hi);
    hide AfterClear, FmmuEvents, ClockEvents, FsmChange.ChangeEvents, AllMiss;
    MissConcat(AfterClear(j), FmmuEvents(j, j.slave.fmmus), lo, hi);
    MissConcat(AfterClear(j) + FmmuEvents(j, j.slave.fmmus),
      ClockEvents(j, rd) + FsmChange.ChangeEvents(j.station, SAFEOP), lo, hi);
  }

  lemma ClearedPage(mem: seq<byte>, j: Job, at: nat, k: nat)
    requires at == FMMU_BASE + FMMU_PAGE * k && k < 16 && LrwRing.RAM <= |mem|
    ensures Played(Played(mem, j.station, []), j.station, Clearing(j))[at..at + FMMU_PAGE]
      == if k < 3 then Zeros(FMMU_PAGE) else mem[at..at + FMMU_PAGE]
  {
    var cleared := Overlay(mem, FMMU_BASE, Zeros(48));
    assert Played(mem, j.station, [Write(j, FMMU_BASE, Zeros(48))]) == cleared by {
      assert [Write(j, FMMU_BASE, Zeros(48))][..0] == [];
    }
    if k < 3 {
      assert cleared[at..at + FMMU_PAGE] == Zeros(FMMU_PAGE);
    } else {
      assert cleared[at..at + FMMU_PAGE] == mem[at..at + FMMU_PAGE];
    }
  }

  /** A generated slave with up to sixteen FMMU channels comes out of its bring-up configured
      for the cyclic exchange exactly if its channels beyond the three that are cleared were
      off before. */
  lemma BringUpConfiguresIff(e: LrwRing.Slave, j: Job, rd: FsmDc.Readings)
    requires rd.Valid() && MailboxInRam(j) && 2 <= e.fmmus <= 16
    requires |j.slave.fmmus| == 2 && j.slave.fmmus[0].dir == Output && j.slave.fmmus[1].dir == Input
    ensures LrwRing.Configured(e.(mem := Played(e.mem, j.station, Plan(j, rd))), j.slave)
      <==> forall i :: 3 <= i < e.fmmus ==> LrwRing.Channel(e, i) == None
  {
    var e' := e.(mem := Played(e.mem, j.station, Plan(j, rd)));
    FmmusConfigured(e.mem, j, rd, 0, FMMU_BASE);
    FmmusConfigured(e.mem, j, rd, 1, FMMU_BASE + FMMU_PAGE);
    hide Plan, Played, FmmuPage;
    forall i | 2 <= i < e.fmmus
      ensures LrwRing.Channel(e', i) == if i < 3 then None else LrwRing.Channel(e, i)
    {
      OtherChannels(e.mem, j, rd, i, FMMU_BASE + FMMU_PAGE * i);
    }
  }

  // ---- Sync-manager pages ----

  /** Process-data sync managers have their own pages, past the mailbox pair. */
  predicate SmsOk(sms: seq<SmCfg>) {
    && (forall sm <- sms :: 2 <= sm.index < 32)
    && (forall i, k :: 0 <= i < k < |sms| ==> sms[i].index != sms[k].index)
  }

  lemma {:induction false} SmPagesHeld(mem: seq<byte>, j: Job, sms: seq<SmCfg>, k: nat, at: nat)
    requires SmsOk(sms) && k < |sms| && LrwRing.RAM <= |mem| && at == SmAddress(sms[k])
    ensures Played(mem, j.station, SmEvents(j, sms))[at..at + SM_PAGE]
      == ProcessPage(sms[k].physStart, sms[k].size, sms[k].control)
  {
    hide ProcessPage, Played, SmEvents, Overlay;
    var n := |sms| - 1;
    assert forall sm <- sms[..n] :: sm in sms;
    assert sms[k] in sms && sms[n] in sms;
    LastSm(mem, j, sms);
    var m, page, last := Played(mem, j.station, SmEvents(j, sms[..n])),
      ProcessPage(sms[n].physStart, sms[n].size, sms[n].control),
      SmAddress(sms[n]);
    if k == n {
      OverlayAt(m, at, page);
    } else {
      SmPagesHeld(mem, j, sms[..n], k, at);
      OverlayPast(m, last, page, at, at + SM_PAGE);
    }
  }

  lemma LastSm(mem: seq<byte>, j: Job, sms: seq<SmCfg>)
    requires sms != []
    ensures var n := |sms| - 1;
      Played(mem, j.station, SmEvents(j, sms))
      == Overlay(Played(mem, j.station, SmEvents(j, sms[..n])), SmAddress(sms[n]),
                 ProcessPage(sms[n].physStart, sms[n].size, sms[n].control))
  {
    hide ProcessPage;
    assert SmEvents(j, sms)[..|SmEvents(j, sms)| - 1] == SmEvents(j, sms[..|sms| - 1]);
  }

  /** What follows the sync-manager pages. */
  function AfterSms(j: Job, rd: FsmDc.Readings): seq<Event>
    requires rd.Valid()
  {
    Watchdogs(j) + FmmuEvents(j, j.slave.fmmus) + (ClockEvents(j, rd) + FsmChange.ChangeEvents(j.station, SAFEOP))
  }

  lemma PlanAfterSms(j: Job, rd: FsmDc.Readings)
    requires rd.Valid()
    ensures Plan(j, rd) == UpToAssign(j) + SmEvents(j, j.slave.sms) + AfterSms(j, rd)
  {
    hide UpToAssign, FmmuEvents, ClockEvents, FsmChange.ChangeEvents, Watchdogs, SmEvents, Plan;
    PlanSplit(j, rd);
  }

  lemma AfterSmsMisses(j: Job, rd: FsmDc.Readings, lo: nat, hi: nat)
    requires rd.Valid() && |j.slave.fmmus| <= 16 && SM0 <= lo && hi <= DC_RECV_TIME
    ensures AllMiss(AfterSms(j, rd), lo, hi)
  {
    assert AllMiss(Watchdogs(j), lo, hi);
    FmmusMiss(j, j.slave.fmmus, lo, hi);
    TailMisses(j, rd, lo, hi);
    hide FmmuEvents, ClockEvents, FsmChange.ChangeEvents, Watchdogs;
    MissConcat(Watchdogs(j), FmmuEvents(j, j.slave.fmmus), lo, hi);
  }

  /** After the bring-up the slave finds, in the registers of each process-data sync manager,
      the configured window, enabled if it carries anything. */
  lemma SmsConfigured(mem: seq<byte>, j: Job, rd: FsmDc.Readings, k: nat, at: nat)
    requires rd.Valid() && SmsOk(j.slave.sms) && k < |j.slave.sms| && |j.slave.fmmus| <= 16 && LrwRing.RAM <= |mem|
    requires at == 0x0800 + 8 * j.slave.sms[k].index
    ensures at + SM_PAGE <= |mem|
    ensures var sm := j.slave.sms[k];
      && Played(mem, j.station, Plan(j, rd))[at..at + SM_PAGE] == ProcessPage(sm.physStart, sm.size, sm.control)
      && DecodeSm(Played(mem, j.station, Plan(j, rd))[at..at + SM_PAGE])
        == Window(sm.physStart, sm.size, sm.control, sm.size > 0)
  {
    hide Plan, Played, ProcessPage, DecodeSm;
    SmHeld(mem, j, rd, k, at);
    PagesSeen(j.slave.sms[k].physStart, j.slave.sms[k].size, j.slave.sms[k].control);
  }

  lemma SmHeld(mem: seq<byte>, j: Job, rd: FsmDc.Readings, k: nat, at: nat)
    requires rd.Valid() && SmsOk(j.slave.sms) && k < |j.slave.sms| && |j.slave.fmmus| <= 16 && LrwRing.RAM <= |mem|
    requires at == SM0 + 8 * j.slave.sms[k].index
    ensures at + SM_PAGE <= |mem|
    ensures var sm := j.slave.sms[k];
      Played(mem, j.station, Plan(j, rd))[at..at + SM_PAGE] == ProcessPage(sm.physStart, sm.size, sm.control)
  {
    hide Plan, UpToAssign, SmEvents, AfterSms, Played, AllMiss, ProcessPage;
    var plan, a, b, c := Plan(j, rd), UpToAssign(j), SmEvents(j, j.slave.sms), AfterSms(j, rd);
    assert j.slave.sms[k] in j.slave.sms;
    PlanAfterSms(j, rd);
    AfterSmsMisses(j, rd, at, at + SM_PAGE);
    SmPagesHeld(Played(mem, j.station, a), j, j.slave.sms, k, at);
    ThreeParts(mem, j.station, plan, a, b, c, at, at + SM_PAGE);
  }

  /** What follows the mailbox windows. */
  function AfterOpening(j: Job, rd: FsmDc.Readings): seq<Event>
    requires rd.Valid()
  {
    FsmChange.ChangeEvents(j.station, PREOP) + QueueEvents(j, InitRequests(j.slave.sdoInit))
    + MapEvents(j, j.slave.sms) + AssignEvents(j, j.slave.sms) + SmEvents(j, j.slave.sms) + AfterSms(j, rd)
  }

  lemma PlanAfterOpening(j: Job, rd: FsmDc.Readings)
    requires rd.Valid()
    ensures Plan(j, rd) == [] + Opening(j) + AfterOpening(j, rd)
  {
    hide Opening, FsmChange.ChangeEvents, QueueEvents, MapEvents, AssignEvents, SmEvents, AfterSms, Plan;
    PlanAfterSms(j, rd);
  }

  lemma AfterOpeningMisses(j: Job, rd: FsmDc.Readings, lo: nat, hi: nat)
    requires rd.Valid() && MailboxInRam(j) && SmsOk(j.slave.sms) && |j.slave.fmmus| <= 16
    requires SM0 <= lo && hi <= SM0 + 2 * SM_PAGE
    ensures AllMiss(AfterOpening(j, rd), lo, hi)
  {
    hide PushAll, InitRequests, FsmCoe.SeqEvents, MapEvents, AssignEvents, SmEvents, AfterSms;
    ChangeMisses(j.station, PREOP, lo, hi);
    QueueMisses(j, PushAll(InitRequests(j.slave.sdoInit)), lo, hi);
    MapMisses(j, j.slave.sms, lo, hi);
    AssignMisses(j, j.slave.sms, lo, hi);
    SmsMiss(j, j.slave.sms, lo, hi);
    AfterSmsMisses(j, rd, lo, hi);
  }

  lemma OpeningHeld(mem: seq<byte>, j: Job)
    requires LrwRing.RAM <= |mem|
    ensures Played(Played(mem, j.station, []), j.station, Opening(j))[SM0..SM0 + 2 * SM_PAGE]
      == MailboxOutPage(j.mbox.rxOffset, j.mbox.rxSize) + MailboxInPage(j.mbox.txOffset, j.mbox.txSize)
  {
    hide MailboxOutPage, MailboxInPage;
    var out, inp := MailboxOutPage(j.mbox.rxOffset, j.mbox.rxSize), MailboxInPage(j.mbox.txOffset, j.mbox.txSize);
    var m := Played(mem, j.station, Opening(j)[..2]);
    OpeningLast(mem, j);
    TwoPages(m, SM0, out, inp);
  }

  lemma OpeningLast(mem: seq<byte>, j: Job)
    ensures Played(mem, j.station, Opening(j))
      == Overlay(Overlay(Played(mem, j.station, Opening(j)[..2]), SM0, MailboxOutPage(j.mbox.rxOffset, j.mbox.rxSize)),
           SM0 + SM_PAGE, MailboxInPage(j.mbox.txOffset, j.mbox.txSize))
  {
    hide MailboxOutPage, MailboxInPage, Overlay;
    var o := Opening(j);
    assert o[..3][..2] == o[..2] && |o| == 4 && o[..3][2] == o[2];
    assert Played(mem, j.station, o[..3]) == Take(Played(mem, j.station, o[..2]), j.station, o[2]);
    assert Played(mem, j.station, o) == Take(Played(mem, j.station, o[..3]), j.station, o[3]);
  }

  lemma TwoPages(m: seq<byte>, at: nat, x: seq<byte>, y: seq<byte>)
    requires at + |x| + |y| <= |m|
    ensures Overlay(Overlay(m, at, x), at + |x|, y)[at..at + |x| + |y|] == x + y
  {
  }

  /** After the bring-up the slave finds its two mailbox windows in the registers of the first
      two sync managers: the one the master writes, then the one it reads, both enabled. */
  lemma MailboxConfigured(mem: seq<byte>, j: Job, rd: FsmDc.Readings)
    requires rd.Valid() && MailboxInRam(j) && SmsOk(j.slave.sms) && |j.slave.fmmus| <= 16 && LrwRing.RAM <= |mem|
    ensures Played(mem, j.station, Plan(j, rd))[SM0..SM0 + 2 * SM_PAGE]
      == MailboxOutPage(j.mbox.rxOffset, j.mbox.rxSize) + MailboxInPage(j.mbox.txOffset, j.mbox.txSize)
    ensures var m := Played(mem, j.station, Plan(j, rd));
      && DecodeSm(m[0x0800..0x0808]) == Window(j.mbox.rxOffset, j.mbox.rxSize, 0x26, true)
      && DecodeSm(m[0x0808..0x0810]) == Window(j.mbox.txOffset, j.mbox.txSize, 0x22, true)
  {
    hide Plan, Played, MailboxOutPage, MailboxInPage, DecodeSm;
    MailboxPages(mem, j, rd);
    WindowsSeen(Played(mem, j.station, Plan(j, rd)), j.mbox);
  }

  lemma WindowsSeen(m: seq<byte>, mbox: Mailbox)
    requires LrwRing.RAM <= |m| && m[SM0..SM0 + 2 * SM_PAGE]
      == MailboxOutPage(mbox.rxOffset, mbox.rxSize) + MailboxInPage(mbox.txOffset, mbox.txSize)
    ensures DecodeSm(m[0x0800..0x0808]) == Window(mbox.rxOffset, mbox.rxSize, 0x26, true)
    ensures DecodeSm(m[0x0808..0x0810]) == Window(mbox.txOffset, mbox.txSize, 0x22, true)
  {
    PagesSeen(mbox.rxOffset, mbox.rxSize, 0);
    PagesSeen(mbox.txOffset, mbox.txSize, 0);
    hide MailboxOutPage, MailboxInPage, DecodeSm;
    assert m[0x0800..0x0808] == m[SM0..SM0 + 2 * SM_PAGE][..SM_PAGE];
    assert m[0x0808..0x0810] == m[SM0..SM0 + 2 * SM_PAGE][SM_PAGE..];
  }

  lemma MailboxPages(mem: seq<byte>, j: Job, rd: FsmDc.Readings)
    requires rd.Valid() && MailboxInRam(j) && SmsOk(j.slave.sms) && |j.slave.fmmus| <= 16 && LrwRing.RAM <= |mem|
    ensures Played(mem, j.station, Plan(j, rd))[SM0..SM0 + 2 * SM_PAGE]
      == MailboxOutPage(j.mbox.rxOffset, j.mbox.rxSize) + MailboxInPage(j.mbox.txOffset, j.mbox.txSize)
  {
    hide Plan, Opening, AfterOpening, Played, AllMiss, MailboxOutPage, MailboxInPage;
    PlanAfterOpening(j, rd);
    AfterOpeningMisses(j, rd, SM0, SM0 + 2 * SM_PAGE);
    OpeningHeld(mem, j);
    ThreeParts(mem, j.station, Plan(j, rd), [], Opening(j), AfterOpening(j, rd), SM0, SM0 + 2 * SM_PAGE);
  }

  /** The watchdogs of the process data: a tick of 100 us, and 2000 of them. */
  lemma WatchdogsConfigured(mem: seq<byte>, j: Job, rd: FsmDc.Readings)
    requires rd.Valid() && |j.slave.fmmus| <= 16 && LrwRing.RAM <= |mem|
    ensures var m := Played(mem, j.station, Plan(j, rd));
      FromLe16(m[0x0400], m[0x0401]) == 2498 && FromLe16(m[0x0420], m[0x0421]) == 2000
  {
    hide Plan, Played, AllMiss, UpToSm, FmmuEvents, ClockEvents, FsmChange.ChangeEvents;
    PlanSplit(j, rd);
    var tail := ClockEvents(j, rd) + FsmChange.ChangeEvents(j.station, SAFEOP);
    var rest, plan, k := FmmuEvents(j, j.slave.fmmus) + tail, Plan(j, rd), |UpToSm(j)|;
    assert plan == UpToSm(j) + (Watchdogs(j) + rest);
    AfterWatchdogs(j, rd);
    assert plan[k] == Watchdogs(j)[0] && plan[k + 1] == Watchdogs(j)[1] && plan[k + 2..] == rest;
    assert plan[k + 1..] == [Watchdogs(j)[1]] + rest;
    Held(mem, j.station, plan, k, 0x0400, Le16(2498));
    Held(mem, j.station, plan, k + 1, 0x0420, Le16(2000));
    WordAt(Played(mem, j.station, plan), 0x0400, 2498);
    WordAt(Played(mem, j.station, plan), 0x0420, 2000);
  }

  lemma WordAt(m: seq<byte>, at: nat, w: word)
    requires at + 2 <= |m| && m[at..at + 2] == Le16(w)
    ensures FromLe16(m[at], m[at + 1]) == w
  {
    assert m[at] == m[at..at + 2][0] && m[at + 1] == m[at..at + 2][1];
  }

  lemma AfterWatchdogs(j: Job, rd: FsmDc.Readings)
    requires rd.Valid() && |j.slave.fmmus| <= 16
    ensures var rest := FmmuEvents(j,
        j.slave.fmmus) + (ClockEvents(j, rd) + FsmChange.ChangeEvents(j.station, SAFEOP));
      AllMiss([Watchdogs(j)[1]] + rest, 0x0400, 0x0402) && AllMiss(rest, 0x0420, 0x0422)
  {
    var fs, tail := FmmuEvents(j, j.slave.fmmus), ClockEvents(j, rd) + FsmChange.ChangeEvents(j.station, SAFEOP);
    FmmusMiss(j, j.slave.fmmus, 0x0400, 0x0402);
    FmmusMiss(j, j.slave.fmmus, 0x0420, 0x0422);
    TailMisses(j, rd, 0x0400, 0x0402);
    TailMisses(j, rd, 0x0420, 0x0422);
    hide FmmuEvents, ClockEvents, FsmChange.ChangeEvents;
    MissConcat(fs, tail, 0x0400, 0x0402);
    MissConcat(fs, tail, 0x0420, 0x0422);
  }

  // ---- The order of things ----

  /** Every mailbox transfer comes after PRE-OP has been reached, over mailbox windows that were
      set before it was asked for; and SAFE-OP is asked for last. */
  lemma PlanOrder(mem: seq<byte>, j: Job, rd: FsmDc.Readings, i: nat)
    requires rd.Valid() && LrwRing.RAM <= |mem| && i < |Plan(j, rd)|
    ensures var plan := Plan(j, rd);
      var n := |plan|;
      && n >= 8 && plan[4] == Wrote(j.station, 0x0120, [0x02, 0]) && plan[5] == Reached(j.station, 0x02)
      && plan[n - 2] == Wrote(j.station, 0x0120, [0x04, 0]) && plan[n - 1] == Reached(j.station, 0x04)
      && (plan[i].Answered? || plan[i].Full? ==> i > 5)
      && var m := Played(mem, j.station, plan[..4]);
         && DecodeSm(m[0x0800..0x0808]) == Window(j.mbox.rxOffset, j.mbox.rxSize, 0x26, true)
         && DecodeSm(m[0x0808..0x0810]) == Window(j.mbox.txOffset, j.mbox.txSize, 0x22, true)
  {
    hide Plan, Played, DecodeSm, MailboxOutPage, MailboxInPage;
    PlanEnds(j, rd);
    OpeningHeld(mem, j);
    NothingYet(mem, j);
    WindowsSeen(Played(mem, j.station, Opening(j)), j.mbox);
    BeforeMailbox(j);
    if i <= 5 {
      assert Plan(j, rd)[i] == Plan(j, rd)[..6][i];
    }
    assert Plan(j, rd)[4] == Plan(j, rd)[..6][4] && Plan(j, rd)[5] == Plan(j, rd)[..6][5];
  }

  lemma BeforeMailbox(j: Job)
    ensures forall ev <- Opening(j) + FsmChange.ChangeEvents(j.station, 0x02) :: !ev.Answered? && !ev.Full?
  {
  }

  lemma NothingYet(mem: seq<byte>, j: Job)
    ensures Played(mem, j.station, []) == mem
  {
  }

  lemma PlanEnds(j: Job, rd: FsmDc.Readings)
    requires rd.Valid()
    ensures var plan := Plan(j, rd);
      && |plan| >= 8 && plan[..4] == Opening(j) && plan[..6] == Opening(j) + FsmChange.ChangeEvents(j.station, 0x02)
      && plan[|plan| - 2..] == FsmChange.ChangeEvents(j.station, 0x04)
  {
    hide QueueEvents, MapEvents, AssignEvents, SmEvents, FmmuEvents, ClockEvents, Opening, FsmChange.ChangeEvents;
    assert |FsmChange.ChangeEvents(j.station, 0x02)| == 2 && |FsmChange.ChangeEvents(j.station, 0x04)| == 2 by {
      TwoEvents(j.station);
    }
    var middle := QueueEvents(j, InitRequests(j.slave.sdoInit)) + MapEvents(j, j.slave.sms) + AssignEvents(j,
      j.slave.sms) + SmEvents(j, j.slave.sms) + Watchdogs(j) + FmmuEvents(j, j.slave.fmmus) + ClockEvents(j, rd);
    assert Plan(j, rd) == (Opening(j) + FsmChange.ChangeEvents(j.station, 0x02)) + middle
      + FsmChange.ChangeEvents(j.station, 0x04);
  }

  lemma TwoEvents(station: word)
    ensures |FsmChange.ChangeEvents(station, 0x02)| == 2 && |FsmChange.ChangeEvents(station, 0x04)| == 2
  {
  }

  /** All registers past the AL control word are in their final state before SAFE-OP is asked
      for. */
  lemma ConfiguredBeforeSafeop(mem: seq<byte>, j: Job, rd: FsmDc.Readings)
    requires rd.Valid() && LrwRing.RAM <= |mem|
    ensures var plan := Plan(j, rd);
      |plan| >= 8 && Played(mem, j.station, plan[..|plan| - 2])[0x0122..] == Played(mem, j.station, plan)[0x0122..]
  {
    hide Plan, Played, AllMiss, Opening, FsmChange.ChangeEvents;
    PlanEnds(j, rd);
    ChangeLast(mem, j.station, Plan(j, rd));
  }

  lemma ChangeLast(mem: seq<byte>, station: word, plan: seq<Event>)
    requires LrwRing.RAM <= |mem| && |plan| >= 2 && plan[|plan| - 2..] == FsmChange.ChangeEvents(station, 0x04)
    ensures Played(mem, station, plan[..|plan| - 2])[0x0122..] == Played(mem, station, plan)[0x0122..]
  {
    hide Played, AllMiss, FsmChange.ChangeEvents;
    var n := |plan|;
    var m, last := Played(mem, station, plan[..n - 2]), plan[n - 2..];
    SplitAt(plan, n - 2);
    PlayedConcat(mem, station, plan[..n - 2], last);
    ChangeMisses(station, 0x04, 0x0122, |m|);
    MissedKeeps(m, station, last, 0x0122, |m|);
    ToTheEnd(m, 0x0122);
    ToTheEnd(Played(m, station, last), 0x0122);
  }

  lemma SplitAt(s: seq<Event>, k: nat)
    requires k <= |s|
    ensures s == s[..k] + s[k..]
  {
  }

  lemma ToTheEnd(m: seq<byte>, lo: nat)
    requires lo <= |m|
    ensures m[lo..] == m[lo..|m|]
  {
  }

  /** A slave brought to a state by itself finds its mailbox windows the same way, before the
      state is asked for, and has shown the state at the end. */
  lemma PreOpWindows(mem: seq<byte>, mbox: Mailbox, target: byte)
    requires LrwRing.RAM <= |mem|
    ensures var evs := PreOp.PreEvents(mbox, target, true);
      && |evs| == 4 && evs[2] == Wrote(mbox.station, 0x0120, [target, 0]) && evs[3] == Reached(mbox.station, target)
      && var m := Played(mem, mbox.station, evs[..2]);
         && DecodeSm(m[0x0800..0x0808]) == Window(mbox.rxOffset, mbox.rxSize, 0x26, true)
         && DecodeSm(m[0x0808..0x0810]) == Window(mbox.txOffset, mbox.txSize, 0x22, true)
  {
    hide MailboxOutPage, MailboxInPage, DecodeSm, Overlay, Played;
    var evs := PreOp.PreEvents(mbox, target, true);
    var out, inp := MailboxOutPage(mbox.rxOffset, mbox.rxSize), MailboxInPage(mbox.txOffset, mbox.txSize);
    assert evs[..2] == [Wrote(mbox.station, SM0, out), Wrote(mbox.station, SM1, inp)];
    TwoTaken(mem, mbox.station, Wrote(mbox.station, SM0, out), Wrote(mbox.station, SM1, inp));
    TwoPages(mem, SM0, out, inp);
    WindowsSeen(Played(mem, mbox.station, evs[..2]), mbox);
  }

  lemma TwoTaken(mem: seq<byte>, station: word, a: Event, b: Event)
    ensures Played(mem, station, [a, b]) == Take(Take(mem, station, a), station, b)
  {
    hide Take;
    assert [a, b][..1] == [a] && [a][..0] == [];
    assert Played(mem, station, [a]) == Take(mem, station, a);
    assert Played(mem, station, [a, b]) == Take(Played(mem, station, [a]), station, b);
  }
}
