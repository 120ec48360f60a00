/** The two scans as programs: the blocking one (src/ethercat/fsm_master.rs,
    fsm_slave_scan.rs, fsm_sii.rs) and the stepper (src/ethercat/fsm_scan.rs:97-550). */
module Scan {
  import opened Bytes
  import opened Config
  import opened Datagram
  import opened Device
  import opened Ecrt
  import opened Link
  import opened ScanSpec
  import SM = ScanMeaning
  import Trace

  const TRANSACT_POLL_ATTEMPTS: nat := 50_000
  const SCAN_BUF: nat := 128

  // ---- The bus a record speaks of ----

  /** All that was asked, in order; the scan asks one thing at a time. */
  function Asked(log: seq<Exchange>): (h: seq<Req>)
    requires forall x <- log :: |x.reqs| == 1
    ensures |h| == |log|
  {
    seq(|log|, i requires 0 <= i < |log| => log[i].reqs[0])
  }

  predicate Single(log: seq<Exchange>) { forall x <- log :: |x.reqs| == 1 }

  /** The bus answered as recorded. */
  ghost predicate Follows(bus: Bus, log: seq<Exchange>)
    requires Single(log)
  {
    forall k :: 0 <= k < |log| ==> bus(Asked(log)[..k + 1]) == Parse(log[k].reply)
  }

  lemma FollowsSnoc(bus: Bus, log: seq<Exchange>, x: Exchange)
    requires Single(log) && |x.reqs| == 1
    ensures Single(log + [x]) && Asked(log + [x]) == Asked(log) + x.reqs
    ensures Follows(bus, log + [x]) <==> Follows(bus, log) && bus(Asked(log) + x.reqs) == Parse(x.reply)
  {
    var l := log + [x];
    assert Asked(l) == Asked(log) + x.reqs;
    assert Asked(l)[..|l|] == Asked(l);
    assert forall k :: 0 <= k < |log| ==> Asked(l)[..k + 1] == Asked(log)[..k + 1] && l[k] == log[k];
    if Follows(bus, l) {
      assert bus(Asked(l)[..|log| + 1]) == Parse(l[|log|].reply);
    }
  }

  // ---- The blocking scan ----

  /** No frame got through, or none came back. */
  predicate Lost<T>(r: Outcome<T>) { r.Err? && (r.error == Transport || r.error == Timeout) }

  /** The record grew by what the bus answered. */
  ghost predicate Grew(bus: Bus, old_: seq<Exchange>, new_: seq<Exchange>) {
    Single(old_) && Single(new_) && (Follows(bus, new_) ==> Follows(bus, old_))
  }

  /** Send and wait for the reply under the frame's index. */
  method Transact(dev: Device, index: byte, q: Req, ghost bus: Bus) returns (r: Outcome<seq<byte>>, next: byte)
    requires Single(dev.log)
    modifies dev
    ensures Grew(bus, old(dev.log), dev.log) && (r.Err? ==> Lost(r))
    ensures dev.sent == if r == Err(Transport) then old(dev.sent) else old(dev.sent) + [Frame(Number([q], index))]
    ensures r.Ok? ==> Asked(dev.log) == Asked(old(dev.log)) + [q]
    ensures r.Ok? && Follows(bus, dev.log) ==> bus(Asked(old(dev.log)) + [q]) == Parse(r.value)
  {
    next := (index + 1) % 0x100;
    ghost var ds := Number([q], index);
    var frame := Frame(Number([q], index));
    FrameIndex(ds);
    ReqsOfNumber([q], index);
    var ok := dev.Send(frame, ds);
    if !ok {
      return Err(Transport), next;
    }
    for k := 0 to TRANSACT_POLL_ATTEMPTS
      invariant dev.log == old(dev.log) && dev.awaiting == Some(ds)
      invariant dev.sent == old(dev.sent) + [frame]
    {
      var p := dev.Poll(SCAN_BUF);
      if |p| >= 4 && p[3] == frame[3] {
        FollowsSnoc(bus, old(dev.log), Exchange([q], p));
        return Ok(p), next;
      }
    }
    return Err(Timeout), next;
  }

  /** A request exactly one slave must answer. */
  method AskOne(dev: Device, index: byte, q: Req, ghost bus: Bus) returns (r: Outcome<Reply>, next: byte)
    requires Single(dev.log)
    modifies dev
    ensures Grew(bus, old(dev.log), dev.log)
    ensures !Lost(r) && Follows(bus, dev.log) ==> One(bus, Asked(old(dev.log)), q) == Got(r, Asked(dev.log))
  {
    hide Follows, Asked, Frame, Number;
    var p;
    p, next := Transact(dev, index, q, bus);
    if p.Err? {
      return Err(p.error), next;
    }
    var reply := Parse(p.value);
    if reply.None? {
      return Err(FrameTooShort), next;
    }
    if reply.value.wkc != 1 {
      return Err(WorkingCounter), next;
    }
    return Ok(reply.value), next;
  }

  /** `sii_read_u32`: the command, then up to 200 status polls. */
  method SiiReadU32(dev: Device, ring: word, w: word, index: byte, ghost bus: Bus)
    returns (r: Outcome<dword>, next: byte)
    requires Single(dev.log)
    modifies dev
    ensures Grew(bus, old(dev.log), dev.log)
    ensures !Lost(r) && Follows(bus, dev.log) ==> SiiRead(bus, Asked(old(dev.log)), ring, w) == Got(r, Asked(dev.log))
  {
    hide Follows, Asked, Parse, Number, Frame, SiiReq, PollReq;
    var p;
    p, next := Transact(dev, index, SiiReq(ring, w), bus);
    if p.Err? {
      return Err(p.error), next;
    }
    var reply := Parse(p.value);
    if reply.None? {
      return Err(FrameTooShort), next;
    }
    if reply.value.wkc == 0 {
      return Err(WorkingCounter), next;
    }
    ghost var h := Asked(dev.log);
    for k := 0 to SII_POLLS
      invariant Grew(bus, old(dev.log), dev.log)
      invariant Follows(bus, dev.log) ==>
        SiiRead(bus, Asked(old(dev.log)), ring, w) == SiiPoll(bus, Asked(dev.log), ring, SII_POLLS - k)
    {
      p, next := Transact(dev, next, PollReq(ring), bus);
      if p.Err? {
        return Err(p.error), next;
      }
      reply := Parse(p.value);
      if reply.None? {
        return Err(FrameTooShort), next;
      }
      var d := reply.value.data;
      if reply.value.wkc == 0 || |d| < 10 {
        continue;
      }
      if (d[1] / 32) % 2 == 1 {
        return Err(SiiError), next;
      }
      if d[1] < 0x80 && d[1] % 2 == 0 {
        return Ok(FromLe32(d[6..10])), next;
      }
    }
    return Err(SiiTimeout), next;
  }

  /** The six EEPROM words, in order. */
  method SiiWords(dev: Device, ring: word, index: byte, ghost bus: Bus) returns (r: Outcome<seq<dword>>, next: byte)
    requires Single(dev.log)
    modifies dev
    ensures Grew(bus, old(dev.log), dev.log) && (r.Ok? ==> |r.value| == FIELDS)
    ensures !Lost(r) && Follows(bus, dev.log) ==>
      SiiFields(bus, Asked(old(dev.log)), ring, []) == Got(r, Asked(dev.log))
  {
    hide Follows, Asked, SiiRead;
    var values: seq<dword> := [];
    next := index;
    while |values| < FIELDS
      invariant |values| <= FIELDS && Grew(bus, old(dev.log), dev.log)
      invariant Follows(bus, dev.log) ==>
        SiiFields(bus, Asked(old(dev.log)), ring, []) == SiiFields(bus, Asked(dev.log), ring, values)
    {
      var v;
      v, next := SiiReadU32(dev, ring, SII_WORDS[|values|], next, bus);
      if v.Err? {
        return Err(v.error), next;
      }
      values := values + [v.value];
    }
    return Ok(values), next;
  }

  /** Of whatever slaves the bus is made, where those before have their addresses: this one's
      own registers and EEPROM words. */
  ghost predicate Told(bus: Bus, h: seq<Req>, ring: word, info: SlaveInfo) {
    forall units ::
      SM.Honest(bus, units) && ring <= |units| && ring < MAX_SLAVES && SM.Addressed(units, h, ring) ==>
      ring < |units| && SM.Describes(info, units[ring], ring)
  }

  lemma TrulyTold(bus: Bus, h: seq<Req>, ring: word)
    ensures ScanSlave(bus, h, ring).r.Ok? ==> Told(bus, h, ring, ScanSlave(bus, h, ring).r.value)
  {
    hide ScanSlave, SM.Honest, SM.Addressed, SM.Describes;
    if ScanSlave(bus, h, ring).r.Ok? {
      forall units | SM.Honest(bus, units) && ring <= |units| && ring < MAX_SLAVES && SM.Addressed(units, h, ring)
        ensures ring < |units| && SM.Describes(ScanSlave(bus, h, ring).r.value, units[ring], ring)
      {
        SM.SlaveDescribes(bus, units, h, ring);
      }
    }
  }

  /** `scan_slave`. */
  method ScanOne(dev: Device, ring: word, index: byte, ghost bus: Bus) returns (r: Outcome<SlaveInfo>, next: byte)
    requires Single(dev.log)
    modifies dev
    ensures Grew(bus, old(dev.log), dev.log)
    ensures !Lost(r) && Follows(bus, dev.log) ==> ScanSlave(bus, Asked(old(dev.log)), ring) == Got(r, Asked(dev.log))
    ensures r.Ok? && Follows(bus, dev.log) ==> Told(bus, Asked(old(dev.log)), ring, r.value)
  {
    hide Follows, Asked, One, SiiFields, InfoOf, Told;
    var a;
    a, next := AskOne(dev, index, AssignReq(ring), bus);
    if a.Err? {
      return Err(a.error), next;
    }
    var al;
    al, next := AskOne(dev, next, AlReq(ring), bus);
    if al.Err? {
      return Err(al.error), next;
    }
    var dl;
    dl, next := AskOne(dev, next, DlReq(ring), bus);
    if dl.Err? {
      return Err(dl.error), next;
    }
    var words;
    words, next := SiiWords(dev, ring, next, bus);
    if words.Err? {
      return Err(words.error), next;
    }
    r := Ok(InfoOf(WithDl(WithAl(Begin(ring), al.value), dl.value).(values := words.value)));
    TrulyTold(bus, Asked(old(dev.log)), ring);
  }

  /** Of whatever slaves the bus is made: each of them, up to `most`, by its own registers and
      EEPROM words. */
  ghost predicate AllTold(bus: Bus, found: seq<SlaveInfo>, most: nat) {
    forall units :: SM.Honest(bus, units) ==>
      SM.Lists(found, units) && |found| == if |units| < most then |units| else most
  }

  lemma AllTrulyTold(bus: Bus, h: seq<Req>, found: seq<SlaveInfo>)
    ensures ScanBus(bus).r == Ok(found) ==> AllTold(bus, found, 0xFFFF)
    ensures Ends(bus, h, found) ==> AllTold(bus, found, 32)
  {
    hide ScanBus, Ends, SM.Honest, SM.Lists;
    forall units | SM.Honest(bus, units)
      ensures ScanBus(bus).r == Ok(found) ==>
        SM.Lists(found, units) && |found| == if |units| < 0xFFFF then |units| else 0xFFFF
      ensures Ends(bus, h, found) ==> SM.Lists(found, units) && |found| == if |units| < 32 then |units| else 32
    {
      SM.HonestSize(bus, units);
      if ScanBus(bus).r == Ok(found) {
        SM.BlockingDescribes(bus, units);
      }
      if Ends(bus, h, found) {
        SM.SteppedDescribes(bus, units, h, found);
      }
    }
  }

  /** `scan_bus`: whatever it reports without losing a frame is the scan of the bus it met. */
  method ScanBlocking(dev: Device, ghost bus: Bus) returns (r: Outcome<seq<SlaveInfo>>)
    requires dev.log == []
    modifies dev
    ensures Single(dev.log)
    ensures !Lost(r) && Follows(bus, dev.log) ==> ScanBus(bus) == Got(r, Asked(dev.log))
    ensures r.Ok? && Follows(bus, dev.log) ==> AllTold(bus, r.value, 0xFFFF)
  {
    assert Asked([]) == [] && [] + [CountReq()] == [CountReq()];
    hide Follows, Asked, ScanSlave, AllTold;
    var p, next := Transact(dev, 0, CountReq(), bus);
    if p.Err? {
      return Err(p.error);
    }
    var reply := Parse(p.value);
    if reply.None? {
      return Err(FrameTooShort);
    }
    var count := reply.value.wkc;
    p, next := Transact(dev, next, ClearReq(), bus);
    if p.Err? {
      return Err(p.error);
    }
    var found: seq<SlaveInfo> := [];
    while |found| < count
      invariant |found| <= count && Single(dev.log)
      invariant Follows(bus, dev.log) ==> ScanBus(bus) == ScanSlaves(bus, Asked(dev.log), count, found)
    {
      if |found| >= MAX_SLAVES {
        return Err(TooManySlaves);
      }
      var info;
      info, next := ScanOne(dev, |found|, next, bus);
      if info.Err? {
        return Err(info.error);
      }
      found := found + [info.value];
    }
    AllTrulyTold(bus, Asked(dev.log), found);
    return Ok(found);
  }

  // ---- The stepper ----

  class ScanFsm {
    var stage: Stage
    var count: word
    var cur: Cur
    var phase: SiiPhase
    var polls: nat
    /** The slave just finished, until the caller takes it. */
    var completed: Option<SlaveInfo>
    const link: Link

    ghost function Repr(): set<object> { {this, link} }

    ghost function Model(): ScanSpec.Scan
      reads this
    {
      ScanSpec.Scan(stage, count, cur, phase, polls, completed)
    }

    ghost predicate Valid()
      reads Repr()
    {
      link.Valid() && Model().Valid() && (stage != Done ==> link.Carries([Ask(Model())]))
    }

    constructor ()
      ensures Valid() && fresh(Repr()) && Model() == Start() && link.Idle() && !link.sent
    {
      stage, count, cur, phase, polls, completed := Count, 0, Begin(0), Command, 0, None;
      link := new Link(128);
    }

    /** Steps left, whatever the bus answers. */
    ghost function Budget(): nat
      reads this, link
      requires Model().Valid()
    {
      if stage == Done then 0 else link.Budget() + EXCHANGE * (Left(Model()) - 1)
    }

    method TakeCompleted() returns (slave: Option<SlaveInfo>)
      requires Valid()
      modifies this`completed
      ensures Valid() && slave == old(completed) && Model() == old(Model()).(completed := None)
        && Budget() == old(Budget())
    {
      slave, completed := completed, None;
    }

    /** One poll. Every answered request moves the scan exactly as `Answer` says. */
    method Step(dev: Device, index: byte) returns (r: Outcome<bool>, next: byte)
      requires Valid() && link.Awaits(Trace.Record(dev))
      modifies Repr(), dev
      ensures r.Ok? ==> Valid() && link.Awaits(Trace.Record(dev)) && (r.value <==> old(stage) == Done)
      ensures r.Ok? && !r.value ==> Budget() < old(Budget())
      ensures r.Ok? && dev.log == old(dev.log) ==> Model() == old(Model())
      ensures r.Ok? && dev.log != old(dev.log) ==>
        && old(stage) != Done && |dev.log| == |old(dev.log)| + 1
        && var x := dev.log[|old(dev.log)|];
           && dev.log == old(dev.log) + [x] && x.reqs == [Ask(old(Model()))]
           && Parse(x.reply).Some? && Answer(old(Model()), Parse(x.reply).value) == Ok(Model())
    {
      hide Answer, Ask, Left, Trace.Record, Trace.Note, Number, Parse, NextReq;
      next := index;
      if stage == Done {
        return Ok(true), next;
      }
      var a;
      a, next := link.Ask(dev, index, [NextReq()]);
      match a
      case Err(e) => return Err(e), next;
      case Ok(None) => return Ok(false), next;
      case Ok(Some(bytes)) =>
        var reply := Parse(bytes);
        if reply.None? {
          return Err(FrameTooShort), next;
        }
        r := Take(reply.value);
    }

    function NextReq(): (q: Req)
      reads this
      requires Model().Valid() && stage != Done
      ensures q == Ask(Model())
    {
      match stage
      case Count => CountReq()
      case Clear => ClearReq()
      case Apwr => AssignReq(cur.ring)
      case Al => AlReq(cur.ring)
      case Dl => DlReq(cur.ring)
      case Sii => if phase == Command then SiiReq(cur.ring, SII_WORDS[|cur.values|]) else PollReq(cur.ring)
    }

    /** The reply callbacks of the stages. */
    method Take(reply: Reply) returns (r: Outcome<bool>)
      requires Valid() && stage != Done && link.Idle()
      modifies this
      ensures r.Ok? ==> !r.value && Answer(old(Model()), reply) == Ok(Model()) && Valid() && link.Idle()
      ensures r.Ok? ==> Left(Model()) < old(Left(Model()))
      ensures r.Err? ==> Answer(old(Model()), reply) == Err(r.error)
    {
      hide InfoOf, Left, At, SiiReq, PollReq, AssignReq;
      ghost var m := Model();
      match stage {
        case Count =>
          count := reply.wkc;
          stage := if count == 0 then Done else Clear;
        case Clear =>
          stage, cur := Apwr, Begin(0);
        case Apwr =>
          if reply.wkc != 1 {
            return Err(WorkingCounter);
          }
          stage := Al;
        case Al =>
          if reply.wkc != 1 {
            return Err(WorkingCounter);
          }
          stage, cur := Dl, WithAl(cur, reply);
        case Dl =>
          if reply.wkc != 1 {
            return Err(WorkingCounter);
          }
          stage, cur, phase, polls := Sii, WithDl(cur, reply), Command, 0;
        case Sii =>
          var ok := TakeSii(reply);
          if ok.Err? {
            return Err(ok.error);
          }
      }
      AnswerLess(m, reply);
      return Ok(false);
    }

    method TakeSii(reply: Reply) returns (r: Outcome<bool>)
      requires Model().Valid() && stage == Sii
      modifies this
      ensures if r.Ok? then Answer(old(Model()), reply) == Ok(Model()) else Answer(old(Model()), reply) == Err(r.error)
    {
      hide InfoOf;
      if phase == Command {
        if reply.wkc == 0 {
          return Err(WorkingCounter);
        }
        phase, polls := Poll, 0;
        return Ok(false);
      }
      match SiiStatus(reply)
      case Failed => return Err(SiiError);
      case Ready(v) =>
        cur := cur.(values := cur.values + [v]);
        if |cur.values| < FIELDS {
          phase, polls := Command, 0;
        } else {
          FinishSlave();
        }
        return Ok(false);
      case Retry =>
        polls := polls + 1;
        if polls >= SII_MAX_POLLS {
          return Err(SiiTimeout);
        }
        return Ok(false);
    }

    method FinishSlave()
      requires |cur.values| == FIELDS && cur.ring < MAX_SLAVES && (phase == Poll ==> polls < SII_MAX_POLLS)
      modifies this
      ensures Model() == Finish(old(Model()))
      ensures completed.Some? && forall u: SM.Unit :: SM.Complete(old(cur), u) ==>
        SM.Describes(completed.value, u, old(cur.ring))
    {
      ghost var was := cur;
      completed := Some(InfoOf(cur));
      var next := cur.ring + 1;
      if next < count && next < MAX_SLAVES {
        stage, cur, phase, polls := Apwr, Begin(next), Command, 0;
      } else {
        stage := Done;
      }
      forall u: SM.Unit | SM.Complete(was, u)
        ensures SM.Describes(InfoOf(was), u, was.ring)
      {
        SM.FieldsAre(u, was);
      }
    }
  }

  // ---- The stepper run to its end ----

  /** The exchanges `xs` are those of a stepped scan that stands at `s` and has published
      `out`; on a bus that answers as they record, it got there by its own steps. */
  ghost predicate Tracked(bus: Bus, xs: seq<Exchange>, s: ScanSpec.Scan, out: seq<SlaveInfo>) {
    && Single(xs) && s.Valid() && s.completed == None && Counted(s, out)
    && (Follows(bus, xs) ==> Steps(bus, Conf(Start(), [], []), |xs|) == Ok(Conf(s, Asked(xs), out)))
  }

  /** One more exchange, and its completed slave drained. */
  ghost predicate Moved(xs: seq<Exchange>, s: ScanSpec.Scan, out: seq<SlaveInfo>, xs': seq<Exchange>, s': ScanSpec.Scan,
      out': seq<SlaveInfo>)
    requires s.Valid()
  {
    if xs' == xs then s' == s && out' == out
    else
      && s.stage != Done && |xs'| == |xs| + 1 && xs' == xs + [xs'[|xs|]] && xs'[|xs|].reqs == [Ask(s)]
      && var reply := Parse(xs'[|xs|].reply);
         && reply.Some? && Answer(s, reply.value).Ok?
         && var a := Answer(s, reply.value).value;
            && s' == a.(completed := None) && out' == Joined(out, a.completed)
  }

  /** A finished slave joins the list, if there is room. */
  function Joined(slaves: seq<SlaveInfo>, found: Option<SlaveInfo>): seq<SlaveInfo> {
    if found.Some? && |slaves| < MAX_SLAVES then slaves + [found.value] else slaves
  }

  lemma NothingYet(bus: Bus)
    ensures Tracked(bus, [], Start(), [])
  {
    assert Steps(bus, Conf(Start(), [], []), 0) == Ok(Conf(Start(), [], []));
    assert Asked([]) == [];
  }

  lemma TrackedOn(bus: Bus, xs: seq<Exchange>, s: ScanSpec.Scan, out: seq<SlaveInfo>,
                  xs': seq<Exchange>, s': ScanSpec.Scan, out': seq<SlaveInfo>)
    requires Tracked(bus, xs, s, out) && Moved(xs, s, out, xs', s', out')
    ensures Tracked(bus, xs', s', out')
  {
    hide Follows, Asked, Steps, Answer, Ask, Parse, Counted;
    if xs' != xs {
      var x := xs'[|xs|];
      var a := Answer(s, Parse(x.reply).value).value;
      FollowsSnoc(bus, xs, x);
      AnswerCounted(s, Parse(x.reply).value, out);
      SlotAside(s', a, out');
      if Follows(bus, xs') {
        Drained(bus, s, a, Asked(xs), x, out);
        StepsSnoc(bus, Conf(Start(), [], []), |xs|, Conf(s, Asked(xs), out), Conf(s', Asked(xs'), out'));
      }
    }
  }

  lemma SlotAside(s': ScanSpec.Scan, a: ScanSpec.Scan, out: seq<SlaveInfo>)
    requires s' == a.(completed := None)
    ensures Counted(s', out) <==> Counted(a, out)
  {
  }

  lemma Drained(bus: Bus, m: ScanSpec.Scan, s: ScanSpec.Scan, h: seq<Req>, x: Exchange, out: seq<SlaveInfo>)
    requires m.Valid() && m.completed == None && m.stage != Done && x.reqs == [Ask(m)]
    requires bus(h + x.reqs) == Parse(x.reply) && Parse(x.reply).Some? && Answer(m, Parse(x.reply).value) == Ok(s)
    ensures StepOn(bus, Conf(m, h, out))
      == Ok(Conf(s.(completed := None), h + x.reqs, if s.completed.Some? then out + [s.completed.value] else out))
  {
  }

  /** What a finished scan found, by the exchanges `xs`: slaves in ring order, at most 32, the
      ones the stepped scan of the bus ends with, and each described by its own registers and
      EEPROM; and where the blocking scan of the same bus finds slaves, those, by the same
      requests. */
  ghost predicate Found(bus: Bus, xs: seq<Exchange>, out: seq<SlaveInfo>) {
    && Single(xs) && InOrder(out) && |out| <= MAX_SLAVES
    && (Follows(bus, xs) ==> Ends(bus, Asked(xs), out) && AllTold(bus, out, 32))
    && (Follows(bus, xs) && ScanBus(bus).r.Ok? && ScanBus(bus).r.value != [] && bus([CountReq(), ClearReq()]).Some?
      ==> ScanBus(bus) == Got(Ok(out), Asked(xs)))
  }

  lemma FoundAtEnd(bus: Bus, xs: seq<Exchange>, s: ScanSpec.Scan, out: seq<SlaveInfo>)
    requires Tracked(bus, xs, s, out) && s.stage == Done
    ensures Found(bus, xs, out)
  {
    hide Follows, Steps, AllTold;
    AllTrulyTold(bus, Asked(xs), out);
    if Follows(bus, xs) && ScanBus(bus).r.Ok? && ScanBus(bus).r.value != [] && bus([CountReq(), ClearReq()]).Some? {
      SteppedRefinesBlocking(bus);
      var g := ScanBus(bus);
      EndIsUnique(bus, Conf(Start(), [], []), |xs|, Conf(s, Asked(xs), out),
        |g.h|, Steps(bus, Conf(Start(), [], []), |g.h|).value);
    }
  }

  /** One step, then drain. */
  method StepAndDrain(scan: ScanFsm, dev: Device, index: byte, out: seq<SlaveInfo>)
    returns (r: Outcome<bool>, next: byte, out': seq<SlaveInfo>)
    requires scan.Valid() && scan.link.Awaits(Trace.Record(dev)) && scan.completed == None && Counted(scan.Model(), out)
    modifies scan.Repr(), dev
    ensures r.Ok? ==> scan.Valid() && scan.link.Awaits(Trace.Record(dev)) && scan.completed == None
    ensures r.Ok? ==> Moved(old(dev.log), old(scan.Model()), out, dev.log, scan.Model(), out')
    ensures r.Ok? && !r.value ==> scan.Budget() < old(scan.Budget())
    ensures r.Ok? && r.value ==> scan.stage == Done
  {
    hide Answer, Ask, Left, Parse, Trace.Record, Counted;
    ghost var log, m := dev.log, scan.Model();
    r, next := scan.Step(dev, index);
    if r.Err? {
      return r, next, out;
    }
    if dev.log != log {
      AnswerCounted(m, Parse(dev.log[|log|].reply).value, out);
    }
    var done := scan.TakeCompleted();
    out' := if done.Some? then out + [done.value] else out;
  }

  /** The worker's loop over a rescan: it always ends, and what it returns is what the scan of
      the bus it met finds. */
  method Rescan(dev: Device, index: byte, ghost bus: Bus) returns (r: Outcome<seq<SlaveInfo>>, next: byte)
    modifies dev
    ensures r.Ok? ==> old(dev.log) <= dev.log && Found(bus, dev.log[|old(dev.log)|..], r.value)
  {
    hide Moved, Found, Left, Trace.Record, Follows, Single, Counted, Steps, ScanFsm.Valid, ScanFsm.Budget;
    var scan := new ScanFsm();
    var out: seq<SlaveInfo> := [];
    next := index;
    ghost var from := |dev.log|;
    NothingYet(bus);
    assert dev.log[from..] == [];
    var done := false;
    while !done
      invariant fresh(scan.Repr()) && scan.Valid() && scan.link.Awaits(Trace.Record(dev)) && scan.completed == None
      invariant from == |old(dev.log)| <= |dev.log| && old(dev.log) == dev.log[..from]
      invariant Tracked(bus, dev.log[from..], scan.Model(), out)
      invariant done ==> scan.stage == Done
      decreases if done then 0 else 1, scan.Budget()
    {
      ghost var log, m, was := dev.log, scan.Model(), out;
      var a;
      a, next, out := StepAndDrain(scan, dev, next, out);
      if a.Err? {
        return Err(a.error), next;
      }
      MovedFrom(from, log, m, was, dev.log, scan.Model(), out);
      TrackedOn(bus, log[from..], m, was, dev.log[from..], scan.Model(), out);
      done := a.value;
    }
    FoundAtEnd(bus, dev.log[from..], scan.Model(), out);
    return Ok(out), next;
  }

  /** Moving on looks the same from any point of the record. */
  lemma MovedFrom(from: nat, xs: seq<Exchange>, s: ScanSpec.Scan, out: seq<SlaveInfo>,
                  xs': seq<Exchange>, s': ScanSpec.Scan, out': seq<SlaveInfo>)
    requires from <= |xs| && s.Valid() && Moved(xs, s, out, xs', s', out')
    ensures xs <= xs' && Moved(xs[from..], s, out, xs'[from..], s', out')
  {
    hide Answer, Ask, Parse, Joined;
    if xs' != xs {
      assert xs'[from..] == xs[from..] + [xs'[|xs|]];
      assert |xs'[from..]| == |xs[from..]| + 1;
    }
  }
}
