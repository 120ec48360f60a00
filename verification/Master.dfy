/** The master's runtime operations (src/ethercat/master.rs:35-458): one request at a time,
    advanced one datagram per poll, and every one of them ends. */
module Master {
  import opened Bytes
  import opened Config
  import opened Device
  import opened Ecrt
  import opened Trace
  import ScanSpec
  import Link
  import Scan
  import PreOp
  import FsmCoe
  import Coe
  import CS = ConfigSeq
  import Cyclic
  import EngineSpec
  import FsmChange
  import FsmDc
  import Datagram

  datatype Request =
    | Rescan
    | SetState(slave: nat, target: byte)
    | SdoUpload(slave: nat, index: word, subindex: byte)
    | SdoDownload(slave: nat, index: word, subindex: byte, data: seq<byte>)
    | StartCyclic
    | StopCyclic

  datatype Result =
    | Rescanned(count: nat) | StateReached(target: byte) | SdoUploaded(len: nat) | SdoDownloaded
    | CyclicStarted | CyclicStopped

  datatype Op =
    | Idle
    | Scanning(scan: Scan.ScanFsm)
    | Changing(pre: PreOp.PreOp)
    | Transferring(slave: nat, sdoPre: PreOp.PreOp, coe: FsmCoe.FsmCoe?, request: Coe.SdoRequest)
    | Starting(cfg: CS.ConfigSeq)
    | Stopping(down: PreOp.DownSeq)

  /** The parts of the bus configuration the cyclic engine is built from. */
  datatype Image = Image(fmmus: seq<FmmuCfg>, size: nat, pins: seq<PinCfg>)

  predicate NeedsMailbox(target: byte) { target == PREOP || target == SAFEOP || target == OP }

  /** Where to run a transfer: where the slave is, if it has a mailbox there. */
  function SdoState(s: ScanSpec.SlaveInfo): byte {
    var current := s.alState % 16; if NeedsMailbox(current) then current else PREOP
  }

  function WithState(slaves: seq<ScanSpec.SlaveInfo>, station: word, target: byte): (r: seq<ScanSpec.SlaveInfo>)
    ensures |r| == |slaves|
  {
    seq(|slaves|, i requires 0 <= i < |slaves| =>
      if slaves[i].station == station then slaves[i].(alState := target % 16) else slaves[i])
  }

  lemma SameMailbox(slaves: seq<ScanSpec.SlaveInfo>, station: word, target: byte, i: nat)
    requires i < |slaves|
    ensures CS.MailboxOf(WithState(slaves, station, target)[i]) == CS.MailboxOf(slaves[i])
  {
  }

  /** The list once every slave of `ready` counts as being at `target`. */
  function AllAt(slaves: seq<ScanSpec.SlaveInfo>, ready: seq<(word, word)>, target: byte): seq<ScanSpec.SlaveInfo> {
    if ready == [] then slaves else WithState(AllAt(slaves, ready[..|ready| - 1], target), ready[|ready| - 1].0, target)
  }

  /** Why a request is turned down at once, if it is. */
  function Refusal(request: Request, slaves: seq<ScanSpec.SlaveInfo>): Option<Error> {
    match request
    case SetState(slave, _) => if slave >= |slaves| then Some(NoSuchSlave) else None
    case SdoUpload(slave, _, _) => NoSdo(slave, slaves)
    case SdoDownload(slave, _, _, _) => NoSdo(slave, slaves)
    case StartCyclic => if slaves == [] then Some(NoSuchSlave) else None
    case _ => None
  }

  function NoSdo(slave: nat, slaves: seq<ScanSpec.SlaveInfo>): Option<Error> {
    if slave >= |slaves| then Some(NoSuchSlave) else if !slaves[slave].coe then Some(CoeUnsupported) else None
  }

  /** The transfer a request asks for. */
  function TransferOf(request: Request): Coe.SdoRequest
    requires request.SdoUpload? || request.SdoDownload?
  {
    match request
    case SdoUpload(_, idx, sub) => Coe.SdoRequest(Coe.Upload, idx, sub, [])
    case SdoDownload(_, idx, sub, data) => Coe.DownloadOf(idx, sub, data)
  }

  /** Polls a request can take, whatever the bus answers. */
  function Bound(request: Request, bus: CS.BusCfg, slaves: seq<ScanSpec.SlaveInfo>, driven: nat): nat {
    match request
    case Rescan => Link.EXCHANGE * (2 + ScanSpec.SLAVE_EXCHANGES * MAX_SLAVES) + 1
    case SetState(_, _) => PreOp.PREOP_STEPS + 1
    case SdoUpload(_, _, _) => PreOp.PREOP_STEPS + FsmCoe.COE_STEPS + 2
    case SdoDownload(_, _, _, _) => PreOp.PREOP_STEPS + FsmCoe.COE_STEPS + 2
    case StartCyclic => CS.SlaveSteps(bus, slaves, 0) + 1
    case StopCyclic => PreOp.DownSteps(driven) + 1
  }

  /** The transfer goes to the slave prepared for it, and counts from where that left off. */
  ghost predicate Follows(pre: PreOp.PreOp, coe: FsmCoe.FsmCoe) {
    coe.mbox == pre.mbox && coe.base == pre.base + PreOp.PreEvents(pre.mbox, pre.target, pre.configure)
  }

  class Master {
    const device: Device
    const bus: CS.BusCfg
    const image: Image
    var slaves: seq<ScanSpec.SlaveInfo>
    var index: byte
    var op: Op
    var sdoBuf: seq<byte>
    var cyclic: Cyclic.Cyclic?
    ghost var Repr: set<object>

    /** The operation under way is in order, and apart from the master itself. */
    ghost predicate OpOk()
      reads this, Repr, device`log, device`awaiting, device`offered
    {
      match op
      case Idle => true
      case Scanning(scan) =>
        && scan in Repr && scan.Repr() <= Repr && scan.Valid() && scan.completed == None
        && scan.link.Awaits(Record(device))
      case Changing(pre) => pre in Repr && pre.Repr() <= Repr && pre.Valid() && pre.Linked(Record(device))
      case Transferring(slave, pre, coe, request) =>
        && request.Valid() && pre in Repr && pre.Repr() <= Repr
        && slave < |slaves| && pre.mbox == CS.MailboxOf(slaves[slave])
        && (coe == null ==> pre.Valid() && pre.Linked(Record(device)))
        && (coe != null ==>
          && coe in Repr && coe.Repr() <= Repr && coe.Valid() && coe.Linked(Record(device))
          && coe.state != FsmCoe.Done && coe.request == request && Follows(pre, coe))
      case Starting(cfg) =>
        && cfg in Repr && (cfg.fsm != null ==> cfg.fsm in Repr && (cfg.fsm.queue != null ==> cfg.fsm.queue in Repr))
        && cfg.Repr() <= Repr && this !in cfg.Repr() && cfg.Valid() && cfg.Linked(Record(device))
      case Stopping(down) =>
        down in Repr && down.Repr() <= Repr && down.Valid() && down.Linked(Record(device)) && down.Tried(device)
    }

    ghost predicate Valid()
      reads this, Repr, device`log, device`awaiting, device`offered
    {
      this in Repr && OpOk()
    }

    /** Polls until the operation under way is over. */
    ghost function Budget(): (n: nat)
      reads this, Repr, device`log, device`awaiting, device`offered
      requires Valid()
      ensures op != Idle ==> n > 0
    {
      match op
      case Idle => 0
      case Scanning(scan) => scan.Budget() + 1
      case Changing(pre) => pre.Budget() + 1
      case Transferring(_, pre, coe, _) => if coe == null then pre.Budget() + FsmCoe.COE_STEPS + 2 else coe.Budget() + 1
      case Starting(cfg) => cfg.Budget() + 1
      case Stopping(down) => down.Budget() + 1
    }

    constructor (device: Device, bus: CS.BusCfg, image: Image)
      ensures Valid() && op == Idle && slaves == [] && cyclic == null && fresh(Repr)
      ensures this.device == device && this.bus == bus && this.image == image
    {
      this.device, this.bus, this.image := device, bus, image;
      slaves, index, op, sdoBuf, cyclic := [], 0, Idle, [], null;
      Repr := {this};
    }

    /** How many slaves a stop would have to take down. */
    function Driven(): nat
      reads this, cyclic
    {
      if cyclic == null then 0 else |cyclic.slaves|
    }

    // ---- Beginning a request ----

    /** What `op` is once `request` has begun on the list `was`. */
    ghost predicate Begun(request: Request, was: seq<ScanSpec.SlaveInfo>)
      reads this, Repr, cyclic, device`log, device`awaiting, device`offered
      requires Refusal(request, was) == None && Valid()
    {
      match request
      case Rescan => slaves == [] && op.Scanning? && op.scan.Model() == ScanSpec.Start()
      case SetState(slave, target) =>
        slaves == was && op.Changing? && Brings(op.pre, was[slave], target, NeedsMailbox(target))
      case StartCyclic =>
        slaves == was && op.Starting? && op.cfg.bus == bus && op.cfg.slaves == was
          && op.cfg.base == Record(device).events
      case StopCyclic =>
        slaves == was && op.Stopping? && op.down.stations == Running() && op.down.from == |device.offered|
      case _ =>
        && slaves == was && op.Transferring? && op.slave == request.slave && op.coe == null
          && op.request == TransferOf(request)
        && Brings(op.sdoPre, was[request.slave], SdoState(was[request.slave]), true)
    }

    /** `pre` brings slave `s` to `target`, counting from now. */
    ghost predicate Brings(pre: PreOp.PreOp, s: ScanSpec.SlaveInfo, target: byte, configure: bool)
      reads device`log, device`awaiting, device`offered
    {
      pre.mbox == CS.MailboxOf(s) && pre.target == target && pre.configure == configure
        && pre.base == Record(device).events
    }

    /** The stations the cyclic engine drives. */
    function Running(): seq<word>
      reads this, cyclic
    {
      if cyclic == null then [] else Stations(cyclic.slaves)
    }

    method Begin(request: Request) returns (r: Outcome<bool>)
      requires Valid() && (request.SetState? ==> request.target < 16) && (request.SdoDownload? ==> |request.data| <= 4)
      modifies this
      ensures Valid() && fresh(Repr - old(Repr)) && device.log == old(device.log) && cyclic == old(cyclic)
      ensures r == match Refusal(request, old(slaves)) case Some(e) => Err(e) case None => Ok(true)
      ensures r.Err? ==> op == old(op) && slaves == old(slaves)
      ensures r.Ok? ==>
        Begun(request, old(slaves)) && op != Idle && Budget() <= Bound(request, bus, old(slaves), old(Driven()))
    {
      hide OpOk, Budget;
      match request
      case Rescan =>
        slaves := [];
        BeginScan();
        return Ok(true);
      case SetState(slave, target) =>
        if slave >= |slaves| {
          return Err(NoSuchSlave);
        }
        BeginChange(slaves[slave], target);
        return Ok(true);
      case SdoUpload(slave, idx, sub) =>
        r := BeginSdo(slave, Coe.SdoRequest(Coe.Upload, idx, sub, []));
      case SdoDownload(slave, idx, sub, data) =>
        r := BeginSdo(slave, Coe.DownloadOf(idx, sub, data));
      case StartCyclic =>
        if slaves == [] {
          return Err(NoSuchSlave);
        }
        BeginStart();
        return Ok(true);
      case StopCyclic =>
        BeginStop();
        return Ok(true);
    }

    method BeginScan()
      requires this in Repr
      modifies this`op, this`Repr
      ensures Valid() && op.Scanning? && fresh(Repr - old(Repr)) && op.scan.Model() == ScanSpec.Start()
      ensures Budget() <= Bound(Rescan, bus, [], 0)
    {
      var scan := new Scan.ScanFsm();
      op, Repr := Scanning(scan), Repr + scan.Repr();
    }

    method BeginChange(s: ScanSpec.SlaveInfo, target: byte)
      requires this in Repr && target < 16
      modifies this`op, this`Repr
      ensures Valid() && fresh(Repr - old(Repr)) && op.Changing? && Brings(op.pre, s, target, NeedsMailbox(target))
      ensures Budget() == PreOp.PREOP_STEPS + 1
    {
      hide Record, PreOp.PreOp.Valid, PreOp.PreOp.Linked, PreOp.PreOp.Budget;
      var pre := new PreOp.PreOp(CS.MailboxOf(s), target, NeedsMailbox(target), device);
      op, Repr := Changing(pre), Repr + pre.Repr();
    }

    method BeginStop()
      requires this in Repr
      modifies this`op, this`Repr
      ensures Valid() && fresh(Repr - old(Repr)) && op.Stopping? && op.down.stations == Running()
      ensures op.down.from == |device.offered|
      ensures Budget() == PreOp.DownSteps(Driven()) + 1
    {
      hide Record;
      var down := new PreOp.DownSeq(if cyclic == null then [] else Stations(cyclic.slaves), device);
      op, Repr := Stopping(down), Repr + down.Repr();
    }

    method BeginSdo(slave: nat, request: Coe.SdoRequest) returns (r: Outcome<bool>)
      requires Valid() && request.Valid()
      modifies this`op, this`Repr
      ensures Valid() && fresh(Repr - old(Repr))
      ensures r == match NoSdo(slave, slaves) case Some(e) => Err(e) case None => Ok(true)
      ensures r.Err? ==> op == old(op)
      ensures r.Ok? ==>
        && op.Transferring? && op.slave == slave && op.coe == null && op.request == request
        && Brings(op.sdoPre, slaves[slave], SdoState(slaves[slave]), true)
        && Budget() <= PreOp.PREOP_STEPS + FsmCoe.COE_STEPS + 2
    {
      hide Record, PreOp.PreOp.Valid, PreOp.PreOp.Linked, PreOp.PreOp.Budget;
      if slave >= |slaves| {
        return Err(NoSuchSlave);
      }
      var s := slaves[slave];
      if !s.coe {
        return Err(CoeUnsupported);
      }
      var pre := new PreOp.PreOp(CS.MailboxOf(s), SdoState(s), true, device);
      op, Repr := Transferring(slave, pre, null, request), Repr + pre.Repr();
      return Ok(true);
    }

    method BeginStart()
      requires this in Repr
      modifies this`op, this`Repr
      ensures Valid() && fresh(Repr - old(Repr))
      ensures op.Starting? && op.cfg.bus == bus && op.cfg.slaves == slaves && op.cfg.base == Record(device).events
      ensures Budget() <= CS.SlaveSteps(bus, slaves, 0) + 1
    {
      hide Record, CS.ConfigSeq.Valid, CS.ConfigSeq.Linked, CS.ConfigSeq.Budget, CS.ConfigSeq.Repr, CS.SlaveSteps;
      var cfg := new CS.ConfigSeq(bus, slaves, device);
      op, Repr := Starting(cfg), Repr + cfg.Repr();
    }

    // ---- One poll ----

    /** Still the same operation, perhaps a transfer further on. */
    ghost predicate Same(before: Op)
      reads this`op
    {
      op == before
      || (op.Transferring? && before.Transferring? && op == before.(coe := op.coe))
    }

    /** Advance the operation by one datagram. Pending operations come strictly closer to
        their end, whatever the bus did; and what is reported is on record. */
    method PollOp() returns (r: Option<Outcome<Result>>)
      requires Valid()
      modifies Repr, device
      ensures Valid() && forall o :: o in Repr && o !in old(Repr) ==> fresh(o)
      ensures r.Some? || old(op) == Idle ==> op == Idle
      ensures r.None? && old(op) != Idle ==> op != Idle && Same(old(op)) && Budget() < old(Budget())
      ensures r.Some? && r.value.Ok? ==> Reported(old(op), old(slaves), r.value.value)
      ensures r.None? && (op.Changing? || op.Starting?) ==> slaves == old(slaves)
      ensures old(op).Scanning? && (r.None? || r.value.Ok?) ==>
        var scan := old(op).scan;
        scan.Model().Valid() && Scan.Moved(old(device.log), old(scan.Model()), old(slaves), device.log, scan.Model(),
          slaves)
    {
      hide Record, Datagram.Parse, ScanSpec.Answer, ScanSpec.Ask, PreOp.PreEvents, FsmCoe.SdoEvents, FsmCoe.ResultFrom,
        AllAt;
      hide Budget;
      match op
      case Idle => return None;
      case Scanning(scan) => r := PollScan(scan);
      case Changing(pre) => r := PollChange(pre);
      case Transferring(_, _, coe, _) =>
        if coe == null {
          r := PollSdoState();
        } else {
          r := PollSdo();
        }
      case Starting(cfg) => r := PollStart(cfg);
      case Stopping(down) => r := PollStop(down);
    }

    /** What the bus has acknowledged when an operation reports success, and what has become of
        the list of slaves. */
    ghost predicate Reported(was: Op, list: seq<ScanSpec.SlaveInfo>, result: Result)
      reads *
    {
      match was
      case Idle => false
      case Scanning(scan) => result == Rescanned(|slaves|) && scan.stage == ScanSpec.Done && scan.completed == None
      case Changing(pre) =>
        && result == StateReached(pre.target) && slaves == WithState(list, pre.mbox.station, pre.target)
        && Record(device).events == pre.base + PreOp.PreEvents(pre.mbox, pre.target, pre.configure)
      case Transferring(_, pre, coe, request) =>
        && coe != null && coe.request == request && request.Valid() && Follows(pre, coe)
        && Record(device).events == coe.base + FsmCoe.SdoEvents(coe.mbox, request)
        && (request.kind == Coe.Download ==> result == SdoDownloaded)
        && (request.kind != Coe.Download ==>
          result == SdoUploaded(|sdoBuf|) && FsmCoe.ResultFrom(device.log, request.kind, sdoBuf))
      case Starting(cfg) =>
        && result == CyclicStarted && cfg.Complete(Record(device)) && cyclic != null
        && cyclic.Model() == Engine(CS.Collected(cfg.bus, cfg.slaves, |cfg.bus.slaves|))
        && slaves == AllAt(list, CS.Collected(cfg.bus, cfg.slaves, |cfg.bus.slaves|), SAFEOP)
      case Stopping(down) =>
        result == CyclicStopped && cyclic == null && down.visited == down.stations && down.Tried(device)
    }

    /** The cyclic engine as it starts, for these slaves. */
    ghost function Engine(ready: seq<(word, word)>): EngineSpec.Engine {
      EngineSpec.Start(if image.size < MAX_IMAGE then image.size else MAX_IMAGE, ready, bus.refClock)
    }

    /** The slave the scan has just finished joins the list, if there is room. */
    method PollScan(scan: Scan.ScanFsm) returns (r: Option<Outcome<Result>>)
      requires Valid() && op == Scanning(scan)
      modifies this, scan.Repr(), device
      ensures Valid() && Repr == old(Repr)
      ensures if r.Some? then op == Idle else op == old(op) && Budget() < old(Budget())
      ensures r.Some? && r.value.Ok? ==>
        r.value.value == Rescanned(|slaves|) && scan.stage == ScanSpec.Done && scan.completed == None
      ensures r.None? || r.value.Ok? ==>
        && scan.Model().Valid()
        && Scan.Moved(old(device.log), old(scan.Model()), old(slaves), device.log, scan.Model(), slaves)
    {
      hide Scan.ScanFsm.Valid, Scan.ScanFsm.Budget, ScanSpec.Answer, ScanSpec.Ask, Datagram.Parse, Record;
      ScanValid(scan);
      var a;
      a, index := scan.Step(device, index);
      if a.Err? {
        op := Idle;
        return Some(Err(a.error));
      }
      var done := scan.TakeCompleted();
      if done.Some? && |slaves| < MAX_SLAVES {
        slaves := slaves + [done.value];
      }
      if a.value {
        op := Idle;
        return Some(Ok(Rescanned(|slaves|)));
      }
      return None;
    }

    lemma ScanValid(scan: Scan.ScanFsm)
      requires scan.Valid()
      ensures scan.Model().Valid()
    {
    }

    method PollChange(pre: PreOp.PreOp) returns (r: Option<Outcome<Result>>)
      requires Valid() && op == Changing(pre)
      modifies this, pre.Repr(), device
      ensures Valid() && Repr == old(Repr)
      ensures if r.Some? then op == Idle else op == old(op) && Budget() < old(Budget())
      ensures if r.Some? && r.value.Ok?
        then
          && r.value.value == StateReached(pre.target) && slaves == WithState(old(slaves), pre.mbox.station, pre.target)
          && Record(device).events == pre.base + PreOp.PreEvents(pre.mbox, pre.target, pre.configure)
        else slaves == old(slaves)
    {
      hide Record, PreOp.PreEvents, WithState, PreOp.PreOp.Valid, PreOp.PreOp.Linked, PreOp.PreOp.Budget;
      var a;
      a, index := pre.Step(device, index);
      if a.Ok? && !a.value {
        return None;
      }
      op := Idle;
      if a.Err? {
        return Some(Err(a.error));
      }
      slaves := WithState(slaves, pre.mbox.station, pre.target);
      return Some(Ok(StateReached(pre.target)));
    }

    /** The slave is being brought to a state with a mailbox; once there, the transfer begins.
        The slave is still on the list then, so looking it up again cannot fail. */
    method PollSdoState() returns (r: Option<Outcome<Result>>)
      requires Valid() && op.Transferring? && op.coe == null
      modifies this, op.sdoPre.Repr(), device
      ensures Valid() && forall o :: o in Repr && o !in old(Repr) ==> fresh(o)
      ensures if r.Some? then op == Idle && r.value.Err? else op != Idle && Same(old(op)) && Budget() < old(Budget())
      ensures r.None? && op.coe != null ==>
        && op.slave < |slaves| && op.coe.mbox == CS.MailboxOf(slaves[op.slave])
        && var pre := op.sdoPre;
           && Record(device).events == op.coe.base == pre.base + PreOp.PreEvents(pre.mbox, pre.target, pre.configure)
           && slaves == WithState(old(slaves), pre.mbox.station, pre.target)
    {
      hide PreOp.PreOp.Valid, PreOp.PreOp.Budget, PreOp.PreOp.Linked, PreOp.PreEvents, WithState, Record;
      hide FsmCoe.FsmCoe.Valid, FsmCoe.FsmCoe.Budget, FsmCoe.FsmCoe.Linked;
      var pre := op.sdoPre;
      var a;
      a, index := pre.Step(device, index);
      if a.Ok? && !a.value {
        return None;
      }
      if a.Err? {
        op := Idle;
        return Some(Err(a.error));
      }
      SameMailbox(slaves, pre.mbox.station, pre.target, op.slave);
      slaves := WithState(slaves, pre.mbox.station, pre.target);
      BeginTransfer();
      return None;
    }

    /** The mailbox is open: the transfer itself. */
    method BeginTransfer()
      requires this in Repr && op.Transferring? && op.slave < |slaves|
        && op.sdoPre.mbox == CS.MailboxOf(slaves[op.slave])
      requires op.request.Valid() && op.sdoPre in Repr && op.sdoPre.Repr() <= Repr
      requires var pre := op.sdoPre;
        Record(device).events == pre.base + PreOp.PreEvents(pre.mbox, pre.target, pre.configure)
      modifies this`op, this`Repr
      ensures Valid() && forall o :: o in Repr && o !in old(Repr) ==> fresh(o)
      ensures op.Transferring? && op == old(op).(coe := op.coe) && op.coe != null
        && op.coe.base == Record(device).events
      ensures op.coe.mbox == op.sdoPre.mbox && Budget() == FsmCoe.COE_STEPS + 1
    {
      hide PreOp.PreOp.Valid, PreOp.PreOp.Linked, PreOp.PreEvents, Record;
      var coe := new FsmCoe.FsmCoe(CS.MailboxOf(slaves[op.slave]), op.request, device);
      op, Repr := op.(coe := coe), Repr + coe.Repr();
    }

    method PollSdo() returns (r: Option<Outcome<Result>>)
      requires Valid() && op.Transferring? && op.coe != null
      modifies this, op.coe.Repr(), device
      ensures Valid() && Repr == old(Repr) && slaves == old(slaves)
      ensures if r.Some? then op == Idle else op == old(op) && Budget() < old(Budget())
      ensures r.Some? && r.value.Ok? ==> var coe := old(op).coe;
        && coe.request == old(op).request && coe.request.Valid() && Follows(old(op).sdoPre, coe)
        && Record(device).events == coe.base + FsmCoe.SdoEvents(coe.mbox, coe.request)
        && (coe.request.kind == Coe.Download ==> r.value.value == SdoDownloaded)
        && (coe.request.kind != Coe.Download ==>
          r.value.value == SdoUploaded(|sdoBuf|) && FsmCoe.ResultFrom(device.log, coe.request.kind, sdoBuf))
    {
      hide FsmCoe.FsmCoe.Valid, FsmCoe.FsmCoe.Budget, FsmCoe.FsmCoe.Linked, FsmCoe.SdoEvents, FsmCoe.ResultFrom, Record;
      var coe, request := op.coe, op.request;
      var a;
      a, index := coe.Step(device, index);
      if a.Ok? && !a.value {
        return None;
      }
      op := Idle;
      if a.Err? {
        return Some(Err(a.error));
      }
      Transferred(coe, Record(device));
      if request.kind == Coe.Download {
        return Some(Ok(SdoDownloaded));
      }
      sdoBuf := coe.result;
      return Some(Ok(SdoUploaded(|sdoBuf|)));
    }

    /** A finished transfer has its request and its response on record. */
    lemma Transferred(coe: FsmCoe.FsmCoe, t: Trace)
      requires coe.request.Valid() && coe.state == FsmCoe.Done && coe.Linked(t)
      ensures t.events == coe.base + FsmCoe.SdoEvents(coe.mbox, coe.request)
    {
    }

    method PollStart(cfg: CS.ConfigSeq) returns (r: Option<Outcome<Result>>)
      requires Valid() && op == Starting(cfg)
      modifies this, cfg.Repr(), device
      ensures Valid() && forall o :: o in Repr && o !in old(Repr) ==> fresh(o)
      ensures if r.Some? then op == Idle else op == old(op) && Budget() < old(Budget())
      ensures if r.Some? && r.value.Ok?
        then
          && r.value.value == CyclicStarted && cfg.Complete(Record(device)) && cyclic != null
          && cyclic.Model() == Engine(CS.Collected(cfg.bus, cfg.slaves, |cfg.bus.slaves|))
          && slaves == AllAt(old(slaves), CS.Collected(cfg.bus, cfg.slaves, |cfg.bus.slaves|), SAFEOP)
        else slaves == old(slaves) && cyclic == old(cyclic)
    {
      hide Record, CS.ConfigSeq.Complete, CS.ConfigSeq.Valid, CS.ConfigSeq.Linked, CS.ConfigSeq.Budget,
        CS.ConfigSeq.Repr, AllAt, Engine, CS.ConfigSeq.Halted, Stopped;
      var a;
      a, index := cfg.Step(device, index);
      assert this !in cfg.Repr();
      cfg.Parts();
      ghost var t := Record(device);
      assert a.Ok? && a.value ==> cfg.Complete(t);
      if a.Ok? && !a.value {
        ghost var grown := cfg.Repr();
        Repr := Repr + grown;
        assert cfg.Repr() == grown && cfg.Valid() && cfg.Linked(Record(device));
        cfg.Parts();
        return None;
      }
      if a.Err? {
        op := Idle;
        return Some(Err(a.error));
      }
      Started(cfg, t);
      return Some(Ok(CyclicStarted));
    }

    /** Every slave is at SAFE-OP: the cyclic engine takes over. */
    method Started(cfg: CS.ConfigSeq, ghost t: Trace)
      requires this in Repr && this !in cfg.Repr() && cfg.Complete(t)
      modifies this`op, this`slaves, this`cyclic
      ensures Valid() && op == Idle && Repr == old(Repr) && cfg.Complete(t) && cyclic != null
      ensures cyclic.Model() == Engine(CS.Collected(cfg.bus, cfg.slaves, |cfg.bus.slaves|))
      ensures slaves == AllAt(old(slaves), CS.Collected(cfg.bus, cfg.slaves, |cfg.bus.slaves|), SAFEOP)
    {
      hide CS.Plans, CS.Present, CS.Collected, Record, EngineSpec.Start, WithState, CS.JobFor;
      op := Idle;
      var ready := cfg.ready;
      assert ready == CS.Collected(cfg.bus, cfg.slaves, |cfg.bus.slaves|);
      for i := 0 to |ready|
        modifies this`slaves
        invariant cfg.Complete(t) && slaves == AllAt(old(slaves), ready[..i], SAFEOP)
      {
        assert ready[..i + 1][..i] == ready[..i];
        slaves := WithState(slaves, ready[i].0, SAFEOP);
      }
      assert ready[..|ready|] == ready;
      var engine := new Cyclic.Cyclic(image.fmmus, image.size, image.pins, ready, bus.refClock);
      cyclic := engine;
    }

    method PollStop(down: PreOp.DownSeq) returns (r: Option<Outcome<Result>>)
      requires Valid() && op == Stopping(down)
      modifies this, down.Repr(), device
      ensures Valid() && forall o :: o in Repr && o !in old(Repr) ==> fresh(o)
      ensures if r.Some?
        then op == Idle && r.value == Ok(CyclicStopped) && cyclic == null && down.visited == down.stations
          && down.Tried(device)
        else op == old(op) && Budget() < old(Budget())
      ensures slaves == old(slaves)
        || (old(down.idx) < |down.stations|
            && slaves == WithState(old(slaves), down.stations[old(down.idx)], PREOP)
            && PreOp.EndsWith(Record(device), FsmChange.ChangeEvents(down.stations[old(down.idx)], PREOP)))
    {
      hide PreOp.DownSeq.Valid, PreOp.DownSeq.Budget, PreOp.DownSeq.Linked, PreOp.DownSeq.Tried, WithState,
        PreOp.EndsWith, FsmChange.ChangeEvents, Record;
      var done, reached;
      done, reached, index := down.Step(device, index);
      if reached.Some? {
        slaves := WithState(slaves, reached.value, PREOP);
      }
      if !done {
        Repr := Repr + down.Repr();
        return None;
      }
      op, cyclic := Idle, null;
      return Some(Ok(CyclicStopped));
    }

    // ---- The worker's loop ----

    /** Begin a request and poll it to its end: it ends, within `Bound` polls, on every
        sequence of sends and replies. Success of each kind means what the record and the list
        of slaves then show; `wire` is any account of how the bus answers what it is asked. */
    method Run(request: Request, ghost wire: ScanSpec.Bus) returns (r: Outcome<Result>, polls: nat)
      requires Valid() && (request.SetState? ==> request.target < 16) && (request.SdoDownload? ==> |request.data| <= 4)
      modifies Repr, device
      ensures Valid()
      ensures polls <= old(Bound(request, bus, slaves, Driven()))
      ensures Refusal(request, old(slaves)).Some? ==> r == Err(Refusal(request, old(slaves)).value) && polls == 0
      ensures r.Ok? && request.Rescan? ==>
        && r.value == Rescanned(|slaves|) && old(device.log) <= device.log
        && Scan.Found(wire, device.log[|old(device.log)|..], slaves)
      ensures r.Ok? && request.SetState? ==>
        && request.slave < |old(slaves)| && r.value == StateReached(request.target)
        && var mbox := CS.MailboxOf(old(slaves)[request.slave]);
           && slaves == WithState(old(slaves), mbox.station, request.target)
           && Record(device).events
             == old(Record(device).events) + PreOp.PreEvents(mbox, request.target, NeedsMailbox(request.target))
      ensures r.Ok? && (request.SdoUpload? || request.SdoDownload?) ==>
        && NoSdo(request.slave, old(slaves)) == None && TransferOf(request).Valid()
        && Answered(request, old(slaves)[request.slave], old(Record(device).events), r.value)
      ensures r.Ok? && request.StartCyclic? ==>
        && r.value == CyclicStarted && Planned(old(slaves), old(Record(device).events), Record(device).events)
        && cyclic != null && cyclic.Model() == Engine(CS.Collected(bus, old(slaves), |bus.slaves|))
        && slaves == AllAt(old(slaves), CS.Collected(bus, old(slaves), |bus.slaves|), SAFEOP)
      ensures r.Ok? && request.StopCyclic? ==>
        && r.value == CyclicStopped && cyclic == null && |old(device.offered)| <= |device.offered|
        && PreOp.AskedDown(device.offered[|old(device.offered)|..], old(Running()))
    {
      hide Budget, OpOk, Bound, Record, Engine, PreOp.PreEvents, CS.Plans, FsmCoe.SdoEvents, FsmCoe.ResultFrom;
      hide CS.ConfigSeq.Valid, CS.ConfigSeq.Linked, CS.ConfigSeq.Repr, WithState, AllAt, CS.Collected;
      hide Scan.Moved, Scan.Tracked, Scan.Found, PreOp.AskedDown;
      polls := 0;
      var begun := Begin(request);
      if begun.Err? {
        return Err(begun.error), 0;
      }
      ghost var first, last := op, op;
      ghost var from := |device.log|;
      assert device.log[from..] == [];
      Scan.NothingYet(wire);
      var done: Option<Outcome<Result>> := None;
      while done == None
        invariant Valid() && forall o :: o in Repr && o !in old(Repr) ==> fresh(o)
        invariant done == None ==>
          op != Idle && Same(first) && polls + Budget() <= old(Bound(request, bus, slaves, Driven()))
        invariant last == first || (last.Transferring? && first.Transferring? && last == first.(coe := last.coe))
        invariant done == None && (first.Changing? || first.Starting?) ==> slaves == old(slaves)
        invariant first.Scanning? && (done == None || done.value.Ok?) ==>
          Traced(wire, from, first.scan) && device.log[..from] == old(device.log)
        invariant done != None && done.value.Ok? ==>
          Reported(last, if first.Changing? || first.Starting? then old(slaves) else [], done.value.value)
        invariant polls <= old(Bound(request, bus, slaves, Driven()))
        decreases done == None, Budget()
      {
        last := op;
        ghost var log, list, m := device.log, slaves, if first.Scanning? then first.scan.Model() else ScanSpec.Start();
        done := PollOp();
        polls := polls + 1;
        if first.Scanning? && (done == None || done.value.Ok?) {
          TracedOn(wire, from, log, m, list, first.scan);
        }
      }
      if done.value.Ok? {
        if first.Scanning? {
          Scan.FoundAtEnd(wire, device.log[from..], first.scan.Model(), slaves);
        } else if first.Starting? {
          PlannedBy(first.cfg, Record(device));
        }
      }
      return done.value, polls;
    }

    /** The scan under way is that of the record from `from` on. */
    ghost predicate Traced(wire: ScanSpec.Bus, from: nat, scan: Scan.ScanFsm)
      reads this`slaves, device`log, scan
    {
      from <= |device.log| && Scan.Tracked(wire, device.log[from..], scan.Model(), slaves)
    }

    lemma TracedOn(wire: ScanSpec.Bus, from: nat, log: seq<Exchange>, m: ScanSpec.Scan, list: seq<ScanSpec.SlaveInfo>,
                   scan: Scan.ScanFsm)
      requires from <= |log| && Scan.Tracked(wire, log[from..], m, list)
      requires Scan.Moved(log, m, list, device.log, scan.Model(), slaves)
      ensures Traced(wire, from, scan) && device.log[..from] == log[..from]
    {
      hide Scan.Follows, ScanSpec.Steps, Scan.Moved;
      Scan.MovedFrom(from, log, m, list, device.log, scan.Model(), slaves);
      Scan.TrackedOn(wire, log[from..], m, list, device.log[from..], scan.Model(), slaves);
    }

    /** The slave was brought to a state with its mailbox, its own windows first, and then the
        transfer is the last thing on record: request taken, response read; and what an upload
        returns is what that response carries. */
    ghost predicate Answered(request: Request, s: ScanSpec.SlaveInfo, before: seq<Event>, result: Result)
      reads this, device
      requires request.SdoUpload? || request.SdoDownload?
      requires TransferOf(request).Valid()
    {
      && Record(device).events
        == before + PreOp.PreEvents(CS.MailboxOf(s), SdoState(s), true) + FsmCoe.SdoEvents(CS.MailboxOf(s),
          TransferOf(request))
      && if request.SdoDownload? then result == SdoDownloaded
         else result == SdoUploaded(|sdoBuf|) && FsmCoe.ResultFrom(device.log, Coe.Upload, sdoBuf)
    }

    lemma PlannedBy(cfg: CS.ConfigSeq, t: Trace)
      requires cfg.bus == bus && cfg.Complete(t)
      ensures Planned(cfg.slaves, cfg.base, t.events)
    {
      hide CS.Plans;
      assert CS.Present(bus, cfg.slaves, |cfg.rds|);
    }

    /** The record grew by the plans of all configured slaves, for some clock readings. */
    ghost predicate Planned(was: seq<ScanSpec.SlaveInfo>, before: seq<Event>, after: seq<Event>) {
      exists rds: seq<FsmDc.Readings> :: |rds| == |bus.slaves| && (forall rd <- rds :: rd.Valid())
        && CS.Present(bus, was, |rds|)
        && after == before + CS.Plans(bus, was, rds)
    }
  }

  function Stations(slaves: seq<EngineSpec.SlaveRt>): (ss: seq<word>)
    ensures |ss| == |slaves|
  {
    seq(|slaves|, i requires 0 <= i < |slaves| => slaves[i].station)
  }
}
