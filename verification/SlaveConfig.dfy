/** Bring-up of one slave from INIT to SAFE-OP (src/ethercat/fsm_slave_config.rs): what it is to
    write, and the stepper that writes it. */
module SlaveConfig {
  import opened Bytes
  import opened Config
  import opened Datagram
  import opened Device
  import opened Ecrt
  import opened EscPages
  import opened Link
  import opened Trace
  import opened PdoConfig
  import FsmChange
  import FsmCoe
  import FsmDc

  const WD_DIVIDER_VALUE: word := 0x09C2
  const WD_PDATA_VALUE: word := 0x07D0

  datatype Phase =
    | ClearFmmus | DcClear | MboxSm0 | MboxSm1 | ToPreop | SdoInit | PdoMapping | PdoAssign | PdSm
    | WatchdogDiv | WatchdogTime | Fmmu | DcCycle | ToSafeop | Done

  /** The work order: which slave, and as what. */
  datatype Job = Job(slave: SlaveCfg, station: word, mbox: Mailbox, dcRef: FsmDc.DcRef)

  // ---- The plan ----

  function Write(j: Job, ado: word, data: seq<byte>): Event { Wrote(j.station, ado, data) }

  function SmAddress(sm: SmCfg): word { SM0 + sm.index * 8 }

  function FmmuAddress(i: nat): word { (FMMU_BASE + i * 16) % 0x1_0000 }

  /** FMMUs and DC off, then the two mailbox windows. */
  function Opening(j: Job): (evs: seq<Event>)
    ensures |evs| == 4
  {
    [Write(j, FMMU_BASE, Zeros(48)), Write(j, DC_ACTIVATION, Zeros(2)),
     Write(j, SM0, MailboxOutPage(j.mbox.rxOffset, j.mbox.rxSize)),
     Write(j, SM1, MailboxInPage(j.mbox.txOffset, j.mbox.txSize))]
  }

  function QueueEvents(j: Job, rs: seq<Request>): seq<Event> { FsmCoe.SeqEvents(j.mbox, PushAll(rs)) }

  function PdoEvents(j: Job, pdos: seq<PdoCfg>): seq<Event> {
    if pdos == [] then [] else PdoEvents(j, pdos[..|pdos| - 1]) + QueueEvents(j, MappingRequests(pdos[|pdos| - 1]))
  }

  function MapEvents(j: Job, sms: seq<SmCfg>): seq<Event> {
    if sms == [] then [] else MapEvents(j, sms[..|sms| - 1]) + PdoEvents(j, sms[|sms| - 1].pdos)
  }

  function AssignEvents(j: Job, sms: seq<SmCfg>): seq<Event> {
    if sms == [] then []
    else AssignEvents(j, sms[..|sms| - 1]) + QueueEvents(j, AssignRequests(sms[|sms| - 1].index, sms[|sms| - 1].pdos))
  }

  function SmEvents(j: Job, sms: seq<SmCfg>): seq<Event> {
    if sms == [] then [] else SmEvents(j, sms[..|sms| - 1]) + [SmEvent(j, sms[|sms| - 1])]
  }

  function SmEvent(j: Job, sm: SmCfg): Event { Write(j, SmAddress(sm), ProcessPage(sm.physStart, sm.size, sm.control)) }

  function FmmuEvents(j: Job, fmmus: seq<FmmuCfg>): seq<Event> {
    if fmmus == [] then []
    else FmmuEvents(j, fmmus[..|fmmus| - 1]) + [Write(j, FmmuAddress(|fmmus| - 1), FmmuPage(fmmus[|fmmus| - 1]))]
  }

  function Watchdogs(j: Job): (evs: seq<Event>)
    ensures |evs| == 2
  {
    [Write(j, WD_DIVIDER, Le16(WD_DIVIDER_VALUE)), Write(j, WD_PDATA, Le16(WD_PDATA_VALUE))]
  }

  function ClockEvents(j: Job, rd: FsmDc.Readings): seq<Event>
    requires rd.Valid()
  {
    match j.slave.dc
    case None => []
    case Some(cfg) => FsmDc.DcEvents(j.station, cfg, j.dcRef, rd)
  }

  function UpToPreop(j: Job): seq<Event> { Opening(j) + FsmChange.ChangeEvents(j.station, PREOP) }
  function UpToInit(j: Job): seq<Event> { UpToPreop(j) + QueueEvents(j, InitRequests(j.slave.sdoInit)) }
  function UpToMapping(j: Job): seq<Event> { UpToInit(j) + MapEvents(j, j.slave.sms) }
  function UpToAssign(j: Job): seq<Event> { UpToMapping(j) + AssignEvents(j, j.slave.sms) }
  function UpToSm(j: Job): seq<Event> { UpToAssign(j) + SmEvents(j, j.slave.sms) }
  function UpToWatchdogs(j: Job): seq<Event> { UpToSm(j) + Watchdogs(j) }
  function UpToFmmus(j: Job): seq<Event> { UpToWatchdogs(j) + FmmuEvents(j, j.slave.fmmus) }

  function UpToClock(j: Job, rd: FsmDc.Readings): seq<Event>
    requires rd.Valid()
  {
    UpToFmmus(j) + ClockEvents(j, rd)
  }

  /** The whole bring-up, in order, given what the clocks said on the way. */
  function Plan(j: Job, rd: FsmDc.Readings): seq<Event>
    requires rd.Valid()
  {
    UpToClock(j, rd) + FsmChange.ChangeEvents(j.station, SAFEOP)
  }

  // ---- Where the stepper stands ----

  /** The stepper's control fields. */
  datatype Place = Place(phase: Phase, sm: nat, pdo: nat, fmmu: nat)

  predicate PlaceOk(j: Job, p: Place) {
    && (p.phase in {PdoMapping, PdoAssign, PdSm} ==> p.sm <= |j.slave.sms|)
    && (p.phase == PdoMapping ==>
      if p.sm < |j.slave.sms| then p.pdo <= |j.slave.sms[p.sm].pdos| else p.pdo == 0)
    && (p.phase == Fmmu ==> p.fmmu <= |j.slave.fmmus|)
  }

  /** Everything done before what is under way at `p`. */
  function Before(j: Job, p: Place, rd: FsmDc.Readings): seq<Event>
    requires PlaceOk(j, p) && rd.Valid()
  {
    var sms := j.slave.sms;
    match p.phase
    case ClearFmmus => []
    case DcClear => Opening(j)[..1]
    case MboxSm0 => Opening(j)[..2]
    case MboxSm1 => Opening(j)[..3]
    case ToPreop => Opening(j)
    case SdoInit => UpToPreop(j)
    case PdoMapping =>
      UpToInit(j) + MapEvents(j, sms[..p.sm]) + if p.sm < |sms| then PdoEvents(j, sms[p.sm].pdos[..p.pdo]) else []
    case PdoAssign => UpToMapping(j) + AssignEvents(j, sms[..p.sm])
    case PdSm => UpToAssign(j) + SmEvents(j, sms[..p.sm])
    case WatchdogDiv => UpToSm(j)
    case WatchdogTime => UpToSm(j) + Watchdogs(j)[..1]
    case Fmmu => UpToWatchdogs(j) + FmmuEvents(j, j.slave.fmmus[..p.fmmu])
    case DcCycle => UpToFmmus(j)
    case ToSafeop => UpToClock(j, rd)
    case Done => Plan(j, rd)
  }

  /** The register write due at `p`, if that is what is due. */
  function Due(j: Job, p: Place): Option<(word, seq<byte>)>
    requires PlaceOk(j, p)
  {
    match p.phase
    case ClearFmmus => Some((FMMU_BASE, Zeros(48)))
    case DcClear => Some((DC_ACTIVATION, Zeros(2)))
    case MboxSm0 => Some((SM0, MailboxOutPage(j.mbox.rxOffset, j.mbox.rxSize)))
    case MboxSm1 => Some((SM1, MailboxInPage(j.mbox.txOffset, j.mbox.txSize)))
    case PdSm =>
      if p.sm < |j.slave.sms| then
        var sm := j.slave.sms[p.sm]; Some((SmAddress(sm), ProcessPage(sm.physStart, sm.size, sm.control)))
      else None
    case WatchdogDiv => Some((WD_DIVIDER, Le16(WD_DIVIDER_VALUE)))
    case WatchdogTime => Some((WD_PDATA, Le16(WD_PDATA_VALUE)))
    case Fmmu => if p.fmmu < |j.slave.fmmus| then Some((FmmuAddress(p.fmmu), FmmuPage(j.slave.fmmus[p.fmmu]))) else None
    case _ => None
  }

  /** Where an acknowledged write at `p` leads. */
  function AfterWrite(p: Place): Place {
    match p.phase
    case ClearFmmus => p.(phase := DcClear)
    case DcClear => p.(phase := MboxSm0)
    case MboxSm0 => p.(phase := MboxSm1)
    case MboxSm1 => p.(phase := ToPreop)
    case PdSm => p.(sm := p.sm + 1)
    case WatchdogDiv => p.(phase := WatchdogTime)
    case WatchdogTime => p.(phase := Fmmu, fmmu := 0)
    case Fmmu => p.(fmmu := p.fmmu + 1)
    case _ => p
  }

  /** A due write, acknowledged, is exactly the next event of the plan. */
  lemma WriteIsNext(j: Job, p: Place, rd: FsmDc.Readings)
    requires PlaceOk(j, p) && rd.Valid() && Due(j, p).Some?
    ensures PlaceOk(j, AfterWrite(p))
    ensures var (ado, data) := Due(j, p).value;
      Before(j, AfterWrite(p), rd) == Before(j, p, rd) + [Write(j, ado, data)]
  {
    hide UpToPreop, UpToSm, UpToAssign, UpToWatchdogs, SmEvents, FmmuEvents, Zeros, MailboxOutPage, MailboxInPage,
      ProcessPage, FmmuPage, Le16;
    if p.phase in {ClearFmmus, DcClear, MboxSm0, MboxSm1} {
      OpeningStep(j, p, rd);
    } else {
      hide Opening;
      match p.phase
      case PdSm => SmStep(j, p.sm);
      case Fmmu => FmmuStep(j, p.fmmu);
      case WatchdogTime => LastDog(j);
      case _ =>
    }
  }

  lemma OpeningStep(j: Job, p: Place, rd: FsmDc.Readings)
    requires p.phase in {ClearFmmus, DcClear, MboxSm0, MboxSm1} && rd.Valid()
    ensures var (ado, data) := Due(j, p).value; Before(j, AfterWrite(p), rd) == Before(j, p, rd) + [Write(j, ado, data)]
  {
    hide Zeros, MailboxOutPage, MailboxInPage, UpToPreop, UpToSm, UpToAssign, UpToWatchdogs;
    assert Opening(j)[..4] == Opening(j);
  }

  lemma SmStep(j: Job, k: nat)
    requires k < |j.slave.sms|
    ensures SmEvents(j, j.slave.sms[..k + 1]) == SmEvents(j, j.slave.sms[..k]) + [SmEvent(j, j.slave.sms[k])]
  {
    assert j.slave.sms[..k + 1][..k] == j.slave.sms[..k];
  }

  lemma FmmuStep(j: Job, k: nat)
    requires k < |j.slave.fmmus|
    ensures FmmuEvents(j, j.slave.fmmus[..k + 1])
      == FmmuEvents(j, j.slave.fmmus[..k]) + [Write(j, FmmuAddress(k), FmmuPage(j.slave.fmmus[k]))]
  {
    assert j.slave.fmmus[..k + 1][..k] == j.slave.fmmus[..k];
  }

  lemma LastDog(j: Job)
    ensures UpToWatchdogs(j) + FmmuEvents(j, j.slave.fmmus[..0])
      == UpToSm(j) + Watchdogs(j)[..1] + [Write(j, WD_PDATA, Le16(WD_PDATA_VALUE))]
  {
    hide UpToSm, Le16;
    assert j.slave.fmmus[..0] == [];
    assert Watchdogs(j) == Watchdogs(j)[..1] + [Watchdogs(j)[1]];
  }

  /** The CoE sequence due at `p`. */
  function DueQueue(j: Job, p: Place): Option<seq<Request>>
    requires PlaceOk(j, p)
  {
    var sms := j.slave.sms;
    match p.phase
    case SdoInit => Some(InitRequests(j.slave.sdoInit))
    case PdoMapping =>
      if p.sm < |sms| && p.pdo < |sms[p.sm].pdos| then Some(MappingRequests(sms[p.sm].pdos[p.pdo])) else None
    case PdoAssign => if p.sm < |sms| then Some(AssignRequests(sms[p.sm].index, sms[p.sm].pdos)) else None
    case _ => None
  }

  function AfterQueue(p: Place): Place {
    match p.phase
    case SdoInit => p.(phase := PdoMapping, sm := 0, pdo := 0)
    case PdoMapping => p.(pdo := p.pdo + 1)
    case PdoAssign => p.(sm := p.sm + 1)
    case _ => p
  }

  lemma QueueIsNext(j: Job, p: Place, rd: FsmDc.Readings)
    requires PlaceOk(j, p) && rd.Valid() && DueQueue(j, p).Some?
    ensures PlaceOk(j, AfterQueue(p))
    ensures Before(j, AfterQueue(p), rd) == Before(j, p, rd) + FsmCoe.SeqEvents(j.mbox, PushAll(DueQueue(j, p).value))
  {
    hide UpToPreop, UpToMapping, FsmCoe.SeqEvents, PushAll, MappingRequests, AssignRequests, InitRequests;
    var sms := j.slave.sms;
    match p.phase
    case SdoInit =>
      assert sms[..0] == [];
      if |sms| > 0 {
        assert sms[0].pdos[..0] == [];
      }
    case PdoMapping =>
      var pdos := sms[p.sm].pdos;
      assert pdos[..p.pdo + 1][..p.pdo] == pdos[..p.pdo];
    case PdoAssign =>
      assert sms[..p.sm + 1][..p.sm] == sms[..p.sm];
  }

  /** A step that only moves on: a list exhausted, or no clock to configure. */
  function Skip(j: Job, p: Place): Option<Place>
    requires PlaceOk(j, p)
  {
    var sms := j.slave.sms;
    match p.phase
    case PdoMapping =>
      if p.sm >= |sms| then Some(p.(phase := PdoAssign, sm := 0))
      else if p.pdo >= |sms[p.sm].pdos| then Some(p.(sm := p.sm + 1, pdo := 0))
      else None
    case PdoAssign => if p.sm >= |sms| then Some(p.(phase := PdSm, sm := 0)) else None
    case PdSm => if p.sm >= |sms| then Some(p.(phase := WatchdogDiv)) else None
    case Fmmu => if p.fmmu >= |j.slave.fmmus| then Some(p.(phase := DcCycle)) else None
    case DcCycle => if j.slave.dc.None? then Some(p.(phase := ToSafeop)) else None
    case _ => None
  }

  lemma SkipIsFree(j: Job, p: Place, rd: FsmDc.Readings)
    requires PlaceOk(j, p) && rd.Valid() && Skip(j, p).Some?
    ensures PlaceOk(j, Skip(j, p).value)
    ensures Before(j, Skip(j, p).value, rd) == Before(j, p, rd)
  {
    hide UpToInit, UpToWatchdogs, QueueEvents, SmEvent;
    var sms := j.slave.sms;
    assert sms[..|sms|] == sms && sms[..0] == [] && j.slave.fmmus[..|j.slave.fmmus|] == j.slave.fmmus;
    if p.phase == PdoMapping && p.sm < |sms| {
      MappingSkip(j, p, rd);
    }
  }

  lemma MappingSkip(j: Job, p: Place, rd: FsmDc.Readings)
    requires PlaceOk(j, p) && rd.Valid() && p.phase == PdoMapping && p.sm < |j.slave.sms| && Skip(j, p).Some?
    ensures PlaceOk(j, Skip(j, p).value) && Before(j, Skip(j, p).value, rd) == Before(j, p, rd)
  {
    hide UpToInit, UpToWatchdogs, UpToPreop, UpToSm, UpToFmmus, UpToClock, QueueEvents, SmEvent, SmEvents, FmmuEvents,
      AssignEvents, Opening, Watchdogs;
    var sms := j.slave.sms;
    var pdos := sms[p.sm].pdos;
    assert sms[..p.sm + 1][..p.sm] == sms[..p.sm] && pdos[..|pdos|] == pdos;
    if p.sm + 1 < |sms| {
      assert sms[p.sm + 1].pdos[..0] == [];
    }
  }

  function ChangeTarget(p: Place): Option<byte> {
    match p.phase
    case ToPreop => Some(PREOP)
    case ToSafeop => Some(SAFEOP)
    case _ => None
  }

  function AfterChange(p: Place): Place { p.(phase := if p.phase == ToPreop then Phase.SdoInit else Phase.Done) }

  lemma ChangeIsNext(j: Job, p: Place, rd: FsmDc.Readings)
    requires PlaceOk(j, p) && rd.Valid() && ChangeTarget(p).Some?
    ensures PlaceOk(j, AfterChange(p))
    ensures Before(j, AfterChange(p), rd) == Before(j, p, rd) + FsmChange.ChangeEvents(j.station, ChangeTarget(p).value)
  {
    hide Opening, UpToClock, FsmChange.ChangeEvents;
  }

  lemma ClockIsNext(j: Job, p: Place, rd: FsmDc.Readings, rd': FsmDc.Readings)
    requires PlaceOk(j, p) && rd.Valid() && rd'.Valid() && p.phase == DcCycle && j.slave.dc.Some?
    ensures var q := p.(phase := ToSafeop);
      PlaceOk(j, q) && Before(j, q, rd') == Before(j, p, rd) + FsmDc.DcEvents(j.station, j.slave.dc.value, j.dcRef, rd')
  {
    hide UpToFmmus, FsmDc.DcEvents;
  }

  // ---- How long it can take ----

  /** Steps one CoE sequence can take. */
  function QueueSteps(): (n: nat)
    ensures n > 0
  {
    FsmCoe.SeqSteps(FsmCoe.MAX_SEQ) + 1
  }

  function PdosFrom(sms: seq<SmCfg>): nat { if sms == [] then 0 else |sms[0].pdos| + 1 + PdosFrom(sms[1..]) }

  function ClockCost(): nat { FsmDc.DC_STEPS + 1 + FsmChange.CHANGE_STEPS }
  function FmmuCost(j: Job, k: nat): nat { Times(k, EXCHANGE) + 1 + ClockCost() }
  function DogCost(j: Job): nat { EXCHANGE + FmmuCost(j, |j.slave.fmmus|) }
  function SmCost(j: Job, k: nat): nat { Times(k, EXCHANGE) + 1 + EXCHANGE + DogCost(j) }
  function AssignCost(j: Job, k: nat): nat { Times(k, QueueSteps()) + 1 + SmCost(j, |j.slave.sms|) }
  function MapCost(j: Job, k: nat): nat { Times(k, QueueSteps()) + 1 + AssignCost(j, |j.slave.sms|) }
  function PreopCost(j: Job): nat { FsmChange.CHANGE_STEPS + QueueSteps() + MapCost(j, PdosFrom(j.slave.sms)) }

  /** Steps from the start of what is due at `p` to the end, whatever the slave answers. */
  function Cost(j: Job, p: Place): nat
    requires PlaceOk(j, p)
  {
    var sms := j.slave.sms;
    match p.phase
    case ClearFmmus => 4 * EXCHANGE + PreopCost(j)
    case DcClear => 3 * EXCHANGE + PreopCost(j)
    case MboxSm0 => 2 * EXCHANGE + PreopCost(j)
    case MboxSm1 => EXCHANGE + PreopCost(j)
    case ToPreop => PreopCost(j)
    case SdoInit => QueueSteps() + MapCost(j, PdosFrom(sms))
    case PdoMapping => MapCost(j, if p.sm < |sms| then |sms[p.sm].pdos| - p.pdo + 1 + PdosFrom(sms[p.sm + 1..]) else 0)
    case PdoAssign => AssignCost(j, |sms| - p.sm)
    case PdSm => SmCost(j, |sms| - p.sm)
    case WatchdogDiv => EXCHANGE + DogCost(j)
    case WatchdogTime => DogCost(j)
    case Fmmu => FmmuCost(j, |j.slave.fmmus| - p.fmmu)
    case DcCycle => ClockCost()
    case ToSafeop => FsmChange.CHANGE_STEPS
    case Done => 0
  }

  /** Steps the activity due at `p` takes from its start. */
  function Whole(j: Job, p: Place): (n: nat)
    requires PlaceOk(j, p)
    ensures n <= Cost(j, p)
  {
    if p.phase == Phase.Done then 0
    else if Skip(j, p).Some? then 1
    else if Due(j, p).Some? then EXCHANGE
    else if DueQueue(j, p).Some? then QueueSteps()
    else if ChangeTarget(p).Some? then FsmChange.CHANGE_STEPS
    else FsmDc.DC_STEPS
  }

  lemma WriteCost(j: Job, p: Place)
    requires PlaceOk(j, p) && Due(j, p).Some? && PlaceOk(j, AfterWrite(p))
    ensures Cost(j, AfterWrite(p)) + Whole(j, p) <= Cost(j, p)
  {
    hide PreopCost, ClockCost, QueueSteps, PdosFrom;
  }

  lemma QueueCost(j: Job, p: Place)
    requires PlaceOk(j, p) && DueQueue(j, p).Some? && PlaceOk(j, AfterQueue(p))
    ensures Cost(j, AfterQueue(p)) + Whole(j, p) <= Cost(j, p)
  {
    hide SmCost, QueueSteps, InitRequests, MappingRequests, AssignRequests;
    var sms := j.slave.sms;
    if p.phase == Phase.SdoInit && sms != [] {
      assert sms[0..] == sms;
    }
  }

  lemma SkipCost(j: Job, p: Place)
    requires PlaceOk(j, p) && Skip(j, p).Some? && PlaceOk(j, Skip(j, p).value)
    ensures Cost(j, Skip(j, p).value) + 1 <= Cost(j, p)
  {
    hide QueueSteps, PdosFrom, MapCost, PreopCost;
    if p.phase == PdoMapping {
      MappingSkipCost(j, p);
    }
  }

  lemma MappingSkipCost(j: Job, p: Place)
    requires PlaceOk(j, p) && p.phase == PdoMapping && Skip(j, p).Some? && PlaceOk(j, Skip(j, p).value)
    ensures Cost(j, Skip(j, p).value) + 1 <= Cost(j, p)
  {
    hide QueueSteps, AssignCost;
    var sms := j.slave.sms;
    if p.sm + 1 < |sms| {
      assert sms[p.sm + 1..][1..] == sms[p.sm + 2..];
    } else if p.sm + 1 == |sms| {
      assert sms[p.sm + 1..] == [];
    }
  }

  /** A due register write excludes every other activity, and is no AL request. */
  lemma DueAlone(j: Job, p: Place)
    requires PlaceOk(j, p) && Due(j, p).Some?
    ensures DueQueue(j, p).None? && ChangeTarget(p).None? && Skip(j, p).None? && p.phase != DcCycle
      && p.phase != Phase.Done
    ensures AfterWrite(p).phase != Phase.Done && AfterWrite(p).phase != Phase.SdoInit
    ensures Due(j, p).value.0 != AL_CONTROL || |Due(j, p).value.1| != 2
  {
  }

  lemma ChangeAlone(j: Job, p: Place)
    requires PlaceOk(j, p) && ChangeTarget(p).Some?
    ensures DueQueue(j, p).None? && Due(j, p).None? && Skip(j, p).None? && p.phase != DcCycle && p.phase != Phase.Done
    ensures p.phase == ToPreop || AfterChange(p).phase == Phase.Done
  {
  }

  lemma ChangeCost(j: Job, p: Place)
    requires PlaceOk(j, p) && ChangeTarget(p).Some? && PlaceOk(j, AfterChange(p))
    ensures Cost(j, AfterChange(p)) + Whole(j, p) <= Cost(j, p)
  {
    hide QueueSteps, MapCost;
  }

  lemma QueueAlone(j: Job, p: Place)
    requires PlaceOk(j, p) && DueQueue(j, p).Some?
    ensures ChangeTarget(p).None? && Due(j, p).None? && Skip(j, p).None? && p.phase != DcCycle && p.phase != Phase.Done
    ensures AfterQueue(p).phase != Phase.Done && AfterQueue(p).phase != Phase.SdoInit && Whole(j, p) == QueueSteps()
  {
  }

  /** Bring-up only ever writes objects. */
  lemma QueueDownloads(j: Job, p: Place)
    requires PlaceOk(j, p) && DueQueue(j, p).Some?
    ensures FsmCoe.Downloads(PushAll(DueQueue(j, p).value))
  {
    PushAllDownloads(DueQueue(j, p).value);
  }

  lemma {:induction false} PushAllDownloads(rs: seq<Request>)
    requires FsmCoe.Downloads(rs)
    ensures FsmCoe.Downloads(PushAll(rs))
  {
    if rs == [] {
    } else {
      assert forall r <- rs[..|rs| - 1] :: r in rs;
      PushAllDownloads(rs[..|rs| - 1]);
      assert rs[|rs| - 1] in rs;
    }
  }

  function One(b: bool): nat { if b then 1 else 0 }

  /** At every place exactly one thing is due. */
  lemma Cases(j: Job, p: Place)
    requires PlaceOk(j, p)
    ensures One(p.phase == Phase.Done) + One(Skip(j, p).Some?) + One(ChangeTarget(p).Some?) + One(Due(j, p).Some?)
      + One(DueQueue(j, p).Some?) + One(p.phase == DcCycle && j.slave.dc.Some?) == 1
  {
  }

  lemma ClockAlone(j: Job, p: Place)
    requires PlaceOk(j, p) && p.phase == DcCycle && j.slave.dc.Some?
    ensures DueQueue(j, p).None? && Due(j, p).None? && Skip(j, p).None? && ChangeTarget(p).None?
    ensures Due(j, p.(phase := ToSafeop)).None? && Skip(j, p.(phase := ToSafeop)).None?
    ensures Cost(j, p.(phase := ToSafeop)) + Whole(j, p) <= Cost(j, p) && Whole(j, p) == FsmDc.DC_STEPS
  {
  }

  // ---- Where that leads ----

  /** From every place what is due, done in turn, leads to the whole plan. */
  lemma {:induction false} BeforeIsPrefix(j: Job, p: Place, rd: FsmDc.Readings)
    requires PlaceOk(j, p) && rd.Valid()
    ensures Before(j, p, rd) <= Plan(j, rd)
    decreases Cost(j, p)
  {
    hide Before, Plan, Cost, Due, DueQueue, Skip, Whole, FsmCoe.SeqEvents, FsmChange.ChangeEvents, FsmDc.DcEvents,
      PlaceOk;
    Cases(j, p);
    if Skip(j, p).Some? {
      SkipIsFree(j, p, rd);
      SkipCost(j, p);
      BeforeIsPrefix(j, Skip(j, p).value, rd);
    } else if ChangeTarget(p).Some? {
      ChangeIsNext(j, p, rd);
      ChangeCost(j, p);
      WholeSome(j, p);
      BeforeIsPrefix(j, AfterChange(p), rd);
    } else if Due(j, p).Some? {
      WriteIsNext(j, p, rd);
      WriteCost(j, p);
      WholeSome(j, p);
      BeforeIsPrefix(j, AfterWrite(p), rd);
    } else if DueQueue(j, p).Some? {
      QueueIsNext(j, p, rd);
      QueueCost(j, p);
      WholeSome(j, p);
      BeforeIsPrefix(j, AfterQueue(p), rd);
    } else if p.phase == DcCycle {
      ClockIsNext(j, p, rd, rd);
      ClockAlone(j, p);
      WholeSome(j, p);
      BeforeIsPrefix(j, p.(phase := ToSafeop), rd);
    } else {
      AtDone(j, p, rd);
    }
  }

  lemma WholeSome(j: Job, p: Place)
    requires PlaceOk(j, p) && p.phase != Phase.Done
    ensures Whole(j, p) > 0
  {
  }

  lemma AtDone(j: Job, p: Place, rd: FsmDc.Readings)
    requires p.phase == Phase.Done && rd.Valid() && PlaceOk(j, p)
    ensures Before(j, p, rd) == Plan(j, rd)
  {
  }
}
