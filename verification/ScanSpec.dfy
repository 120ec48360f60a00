/** The bus scan twice: the blocking scan (src/ethercat/fsm_master.rs, fsm_slave_scan.rs,
    fsm_sii.rs) as a function of the bus, the stepped scan (src/ethercat/fsm_scan.rs) as a state
    machine on values, and the proof that the second refines the first. */
module ScanSpec {
  import opened Bytes
  import opened Config
  import opened Datagram
  import opened Device
  import opened Ecrt

  const STATION_ADDR: word := 0x0010
  const DL_INFO: word := 0x0000
  const SII_CONTROL: word := 0x0502
  /** Status polls per EEPROM word: blocking and stepped. */
  const SII_POLLS: nat := 200
  const SII_MAX_POLLS: nat := 400
  /** EEPROM words read per slave, in order: vendor, product, revision, RxMailbox, TxMailbox,
      protocols. */
  const SII_WORDS: seq<word> := [0x0008, 0x000A, 0x000C, 0x0018, 0x001A, 0x001C]
  const FIELDS: nat := 6

  datatype SlaveInfo = SlaveInfo(
    ringPos: word, station: word, alState: byte, baseType: byte, fmmuCount: byte, syncCount: byte,
    vendor: dword, product: dword, revision: dword,
    rxOffset: word, rxSize: word, txOffset: word, txSize: word, protocols: word, coe: bool)

  /** A bus that answers every request, by everything it has been asked so far; `None` is a
      reply too short to parse. */
  type Bus = seq<Req> -> Option<Reply>

  /** A result, and all that was asked to get it. */
  datatype Got<+T> = Got(r: Outcome<T>, h: seq<Req>)

  // ---- Requests ----

  function CountReq(): Req { Req(BRD, 0, AL_STATUS, Zeros(2)) }
  function ClearReq(): Req { Req(BWR, 0, STATION_ADDR, Zeros(2)) }
  function AssignReq(ring: word): Req { Req(APWR, AutoincAdp(ring), STATION_ADDR, Le16(Station(ring))) }
  function AlReq(ring: word): Req { Req(FPRD, Station(ring), AL_STATUS, Zeros(2)) }
  function DlReq(ring: word): Req { Req(FPRD, Station(ring), DL_INFO, Zeros(12)) }
  function SiiReq(ring: word, w: word): Req { Req(FPWR, Station(ring), SII_CONTROL,
      [0x80, 0x01, w % 0x100, w / 0x100]) }
  function PollReq(ring: word): Req { Req(FPRD, Station(ring), SII_CONTROL, Zeros(10)) }

  /** `ring_pos + 1`. */
  function Station(ring: word): word { (ring + 1) % 0x1_0000 }

  // ---- What a reply says ----

  function At(data: seq<byte>, i: nat): byte { if i < |data| then data[i] else 0 }

  datatype Status = Retry | Failed | Ready(v: dword)

  /** One status poll: not there yet, a command error, or the word. */
  function SiiStatus(r: Reply): Status {
    if r.wkc == 0 || |r.data| < 10 then Retry
    else if (r.data[1] / 32) % 2 == 1 then Failed
    else if r.data[1] < 0x80 && r.data[1] % 2 == 0 then Ready(FromLe32(r.data[6..10]))
    else Retry
  }

  /** What has been gathered of one slave; `values` are its EEPROM words so far. */
  datatype Cur = Cur(ring: word, al: byte, base: byte, fmmus: byte, syncs: byte, values: seq<dword>)

  function Begin(ring: word): Cur { Cur(ring, 0, 0, 0, 0, []) }
  function WithAl(c: Cur, r: Reply): Cur { c.(al := At(r.data, 0) % 16) }
  function WithDl(c: Cur, r: Reply): Cur { c.(base := At(r.data, 0), fmmus := At(r.data, 4), syncs := At(r.data, 5)) }

  function InfoOf(c: Cur): SlaveInfo
    requires |c.values| == FIELDS
  {
    var v, p := c.values, c.values[5] % 0x1_0000;
    SlaveInfo(c.ring, Station(c.ring), c.al, c.base, c.fmmus, c.syncs, v[0], v[1], v[2],
      v[3] % 0x1_0000, v[3] / 0x1_0000, v[4] % 0x1_0000, v[4] / 0x1_0000, p, (p / 4) % 2 == 1)
  }

  // ---- The blocking scan ----

  /** A request that exactly one slave must answer. */
  function One(bus: Bus, h: seq<Req>, q: Req): Got<Reply> {
    match bus(h + [q])
    case None => Got(Err(FrameTooShort), h + [q])
    case Some(r) => Got(if r.wkc != 1 then Err(WorkingCounter) else Ok(r), h + [q])
  }

  function SiiPoll(bus: Bus, h: seq<Req>, ring: word, left: nat): Got<dword>
    decreases left
  {
    if left == 0 then Got(Err(SiiTimeout), h)
    else
      var h' := h + [PollReq(ring)];
      match bus(h')
      case None => Got(Err(FrameTooShort), h')
      case Some(r) =>
        match SiiStatus(r)
        case Failed => Got(Err(SiiError), h')
        case Ready(v) => Got(Ok(v), h')
        case Retry => SiiPoll(bus, h', ring, left - 1)
  }

  function SiiRead(bus: Bus, h: seq<Req>, ring: word, w: word): Got<dword> {
    var h' := h + [SiiReq(ring, w)];
    match bus(h')
    case None => Got(Err(FrameTooShort), h')
    case Some(r) => if r.wkc == 0 then Got(Err(WorkingCounter), h') else SiiPoll(bus, h', ring, SII_POLLS)
  }

  /** The EEPROM words from `values` on. */
  function SiiFields(bus: Bus, h: seq<Req>, ring: word, values: seq<dword>): Got<seq<dword>>
    requires |values| <= FIELDS
    ensures var g := SiiFields(bus, h, ring, values); g.r.Ok? ==> |g.r.value| == FIELDS
    decreases FIELDS - |values|
  {
    if |values| == FIELDS then Got(Ok(values), h)
    else
      var g := SiiRead(bus, h, ring, SII_WORDS[|values|]);
      match g.r
      case Err(e) => Got(Err(e), g.h)
      case Ok(v) => SiiFields(bus, g.h, ring, values + [v])
  }

  function ScanSlave(bus: Bus, h: seq<Req>, ring: word): Got<SlaveInfo> {
    var a := One(bus, h, AssignReq(ring));
    if a.r.Err? then Got(Err(a.r.error), a.h)
    else
      var al := One(bus, a.h, AlReq(ring));
      if al.r.Err? then Got(Err(al.r.error), al.h)
      else
        var dl := One(bus, al.h, DlReq(ring));
        if dl.r.Err? then Got(Err(dl.r.error), dl.h)
        else
          var f := SiiFields(bus, dl.h, ring, []);
          if f.r.Err? then Got(Err(f.r.error), f.h)
          else Got(Ok(InfoOf(WithDl(WithAl(Begin(ring), al.r.value), dl.r.value).(values := f.r.value))), f.h)
  }

  /** The slaves from ring position `|found|` on. */
  function ScanSlaves(bus: Bus, h: seq<Req>, count: word, found: seq<SlaveInfo>): Got<seq<SlaveInfo>>
    requires |found| <= count
    decreases count - |found|
  {
    if |found| == count then Got(Ok(found), h)
    else if |found| >= MAX_SLAVES then Got(Err(TooManySlaves), h)
    else
      var g := ScanSlave(bus, h, |found|);
      match g.r
      case Err(e) => Got(Err(e), g.h)
      case Ok(info) => ScanSlaves(bus, g.h, count, found + [info])
  }

  /** `scan_bus`. The reply to the clear is not looked at. */
  function ScanBus(bus: Bus): Got<seq<SlaveInfo>> {
    var h := [CountReq()];
    match bus(h)
    case None => Got(Err(FrameTooShort), h)
    case Some(r) => ScanSlaves(bus, h + [ClearReq()], r.wkc, [])
  }

  // ---- The stepped scan ----

  datatype Stage = Count | Clear | Apwr | Al | Dl | Sii | Done
  datatype SiiPhase = Command | Poll

  datatype Scan = Scan(stage: Stage, count: word, cur: Cur, phase: SiiPhase, polls: nat, completed: Option<SlaveInfo>) {
    predicate Valid() {
      && |cur.values| <= FIELDS && (stage == Sii ==> |cur.values| < FIELDS)
      && (stage != Sii && stage != Done ==> cur.values == [])
      && (stage != Done ==> cur.ring < MAX_SLAVES)
      && (phase == Poll ==> polls < SII_MAX_POLLS)
    }
  }

  function Start(): Scan { Scan(Count, 0, Begin(0), Command, 0, None) }

  /** The datagram the scan asks for next. */
  function Ask(s: Scan): Req
    requires s.Valid() && s.stage != Done
  {
    match s.stage
    case Count => CountReq()
    case Clear => ClearReq()
    case Apwr => AssignReq(s.cur.ring)
    case Al => AlReq(s.cur.ring)
    case Dl => DlReq(s.cur.ring)
    case Sii => if s.phase == Command then SiiReq(s.cur.ring, SII_WORDS[|s.cur.values|]) else PollReq(s.cur.ring)
  }

  /** The word is in: on to the next word, or the slave is complete. */
  function TakeWord(s: Scan, v: dword): (s': Scan)
    requires s.Valid() && s.stage == Sii
    ensures s'.Valid()
  {
    var values := s.cur.values + [v];
    if |values| < FIELDS then s.(cur := s.cur.(values := values), phase := Command, polls := 0)
    else Finish(s.(cur := s.cur.(values := values)))
  }

  /** Publish the slave; on to the next ring position, or done. */
  function Finish(s: Scan): (s': Scan)
    requires |s.cur.values| == FIELDS && s.cur.ring < MAX_SLAVES && (s.phase == Poll ==> s.polls < SII_MAX_POLLS)
    ensures s'.Valid()
  {
    var done := s.(completed := Some(InfoOf(s.cur)));
    var next := s.cur.ring + 1;
    if next < s.count && next < MAX_SLAVES then done.(stage := Apwr, cur := Begin(next), phase := Command, polls := 0)
    else done.(stage := Done)
  }

  function Answer(s: Scan, r: Reply): (o: Outcome<Scan>)
    requires s.Valid() && s.stage != Done
    ensures o.Ok? ==> o.value.Valid()
  {
    match s.stage
    case Count => Ok(s.(count := r.wkc, stage := if r.wkc == 0 then Done else Clear))
    case Clear => Ok(s.(stage := Apwr, cur := Begin(0)))
    case Apwr => if r.wkc != 1 then Err(WorkingCounter) else Ok(s.(stage := Al))
    case Al => if r.wkc != 1 then Err(WorkingCounter) else Ok(s.(stage := Dl, cur := WithAl(s.cur, r)))
    case Dl => if r.wkc != 1 then Err(WorkingCounter)
      else Ok(s.(stage := Sii, cur := WithDl(s.cur, r), phase := Command, polls := 0))
    case Sii =>
      if s.phase == Command then
        if r.wkc == 0 then Err(WorkingCounter) else Ok(s.(phase := Poll, polls := 0))
      else
        match SiiStatus(r)
        case Failed => Err(SiiError)
        case Ready(v) => Ok(TakeWord(s, v))
        case Retry => if s.polls + 1 >= SII_MAX_POLLS then Err(SiiTimeout) else Ok(s.(polls := s.polls + 1))
  }

  // ---- How long it can take ----

  const WORD_EXCHANGES: nat := 401
  const SLAVE_EXCHANGES: nat := 2409

  /** Exchanges a scan can still need, whatever the bus answers. */
  function Left(s: Scan): (n: nat)
    requires s.Valid()
    ensures s.stage != Done ==> n > 0
  {
    var rest := SLAVE_EXCHANGES * (if s.cur.ring < MAX_SLAVES then MAX_SLAVES - 1 - s.cur.ring else 0);
    match s.stage
    case Count => 2 + SLAVE_EXCHANGES * MAX_SLAVES
    case Clear => 1 + SLAVE_EXCHANGES * MAX_SLAVES
    case Apwr => rest + SLAVE_EXCHANGES
    case Al => rest + SLAVE_EXCHANGES - 1
    case Dl => rest + SLAVE_EXCHANGES - 2
    case Sii =>
      if s.phase == Command then rest + WORD_EXCHANGES * (FIELDS - |s.cur.values|)
      else rest + WORD_EXCHANGES * (FIELDS - 1 - |s.cur.values|) + (SII_MAX_POLLS - s.polls)
    case Done => 0
  }

  lemma AnswerLess(s: Scan, r: Reply)
    requires s.Valid() && s.stage != Done && Answer(s, r).Ok?
    ensures Left(Answer(s, r).value) < Left(s)
  {
    hide InfoOf, SiiStatus, At;
  }

  // ---- Running the stepped scan on a bus ----

  /** The scan with its slot drained, all it has asked, and all the caller has drained. */
  datatype Conf = Conf(s: Scan, h: seq<Req>, out: seq<SlaveInfo>) {
    predicate Valid() { s.Valid() && s.completed == None }
  }

  /** One request answered, then the completed slot drained. */
  function StepOn(bus: Bus, c: Conf): (o: Outcome<Conf>)
    requires c.Valid() && c.s.stage != Done
    ensures o.Ok? ==> o.value.Valid()
  {
    var h := c.h + [Ask(c.s)];
    match bus(h)
    case None => Err(FrameTooShort)
    case Some(r) =>
      match Answer(c.s, r)
      case Err(e) => Err(e)
      case Ok(s) => Ok(Conf(s.(completed := None), h, if s.completed.Some? then c.out + [s.completed.value] else c.out))
  }

  function Steps(bus: Bus, c: Conf, n: nat): (o: Outcome<Conf>)
    requires c.Valid()
    ensures o.Ok? ==> o.value.Valid()
    decreases n
  {
    if n == 0 || c.s.stage == Done then Ok(c)
    else
      match StepOn(bus, c)
      case Err(e) => Err(e)
      case Ok(c') => Steps(bus, c', n - 1)
  }

  lemma {:induction false} StepsAdd(bus: Bus, c: Conf, n: nat, m: nat, c': Conf)
    requires c.Valid() && Steps(bus, c, n) == Ok(c')
    ensures Steps(bus, c, n + m) == Steps(bus, c', m)
    decreases n
  {
    hide StepOn;
    if n == 0 || c.s.stage == Done {
    } else {
      StepsAdd(bus, StepOn(bus, c).value, n - 1, m, c');
    }
  }

  lemma StepsSnoc(bus: Bus, c0: Conf, n: nat, c: Conf, c': Conf)
    requires c0.Valid() && Steps(bus, c0, n) == Ok(c) && c.s.stage != Done && StepOn(bus, c) == Ok(c')
    ensures Steps(bus, c0, n + 1) == Ok(c')
  {
    StepsAdd(bus, c0, n, 1, c);
    assert Steps(bus, c', 0) == Ok(c');
  }

  lemma EndIsUnique(bus: Bus, c0: Conf, n: nat, c: Conf, m: nat, d: Conf)
    requires c0.Valid() && Steps(bus, c0, n) == Ok(c) && Steps(bus, c0, m) == Ok(d) && c.s.stage == Done
      && d.s.stage == Done
    ensures c == d
  {
    if n <= m {
      StepsAdd(bus, c0, n, m - n, c);
    } else {
      StepsAdd(bus, c0, m, n - m, d);
    }
  }

  /** The stepped scan of this bus ends, having asked `h` and published `out`. */
  predicate Ends(bus: Bus, h: seq<Req>, out: seq<SlaveInfo>) {
    var o := Steps(bus, Conf(Start(), [], []), |h|);
    o.Ok? && o.value.s.stage == Done && o.value.h == h && o.value.out == out
  }

  // ---- What has been published ----

  /** Found slaves stand at their ring positions, under the station that follows. */
  predicate InOrder(slaves: seq<SlaveInfo>) {
    forall i :: 0 <= i < |slaves| ==> slaves[i].ringPos == i && slaves[i].station == i + 1
  }

  /** The slaves published so far are those before the current ring position, at most 32. */
  predicate Counted(s: Scan, out: seq<SlaveInfo>) {
    && InOrder(out) && |out| <= MAX_SLAVES
    && (s.stage == Count || s.stage == Clear ==> out == [])
    && (s.stage in {Apwr, Al, Dl, Sii} ==> |out| == s.cur.ring)
  }

  /** On every bus, whatever it answers. */
  lemma AnswerCounted(s: Scan, r: Reply, out: seq<SlaveInfo>)
    requires s.Valid() && s.completed == None && s.stage != Done && Counted(s, out) && Answer(s, r).Ok?
    ensures var s' := Answer(s, r).value;
      && Counted(s', if s'.completed.Some? then out + [s'.completed.value] else out)
      && (s'.completed.Some? ==> |out| < MAX_SLAVES)
  {
    hide SiiStatus, At;
  }

  // ---- Refinement ----

  /** Polls: what the blocking loop gets, the stepped one gets by the same requests. */
  lemma {:induction false} PollsMatch(bus: Bus, c: Conf, left: nat) returns (n: nat, c1: Conf)
    requires c.Valid() && c.s.stage == Sii && c.s.phase == Poll && c.s.polls + left <= SII_MAX_POLLS
    requires SiiPoll(bus, c.h, c.s.cur.ring, left).r.Ok?
    ensures var g := SiiPoll(bus, c.h, c.s.cur.ring, left);
      && n == |g.h| - |c.h| && Steps(bus, c, n) == Ok(c1)
      && exists p :: 0 <= p < SII_MAX_POLLS && After(c, p, g.r.value, g.h, c1)
    decreases left
  {
    var h := c.h + [PollReq(c.s.cur.ring)];
    var r := bus(h).value;
    match SiiStatus(r)
    case Ready(v) =>
      n, c1 := 1, StepOn(bus, c).value;
      assert After(c, c.s.polls, v, h, c1);
      assert Steps(bus, c, 1) == Steps(bus, c1, 0);
    case Retry =>
      var c2 := c.(s := c.s.(polls := c.s.polls + 1), h := h);
      assert left > 1;
      assert StepOn(bus, c) == Ok(c2);
      n, c1 := PollsMatch(bus, c2, left - 1);
      var g := SiiPoll(bus, h, c.s.cur.ring, left - 1);
      var p :| 0 <= p < SII_MAX_POLLS && After(c2, p, g.r.value, g.h, c1);
      assert After(c, p, g.r.value, g.h, c1);
      n := n + 1;
  }

  /** `c1` is `c` after its `p`-th poll brought the word `v`. */
  predicate After(c: Conf, p: nat, v: dword, h: seq<Req>, c1: Conf)
    requires c.Valid() && c.s.stage == Sii && p < SII_MAX_POLLS
  {
    var s := TakeWord(c.s.(polls := p), v);
    c1 == Conf(s.(completed := None), h, if s.completed.Some? then c.out + [s.completed.value] else c.out)
  }

  /** One request answered without a word coming in. */
  lemma OneStep(bus: Bus, c: Conf, r: Reply, s': Scan)
    requires c.Valid() && c.s.stage != Done && bus(c.h + [Ask(c.s)]) == Some(r)
    requires Answer(c.s, r) == Ok(s') && s'.completed == None
    ensures Steps(bus, c, 1) == Ok(Conf(s', c.h + [Ask(c.s)], c.out))
  {
    var c' := StepOn(bus, c).value;
    assert Steps(bus, c', 0) == Ok(c');
    assert Steps(bus, c, 1) == Steps(bus, c', 0);
  }

  lemma WordMatches(bus: Bus, c: Conf) returns (n: nat, c1: Conf)
    requires c.Valid() && c.s.stage == Sii && c.s.phase == Command
    requires SiiRead(bus, c.h, c.s.cur.ring, SII_WORDS[|c.s.cur.values|]).r.Ok?
    ensures var g := SiiRead(bus, c.h, c.s.cur.ring, SII_WORDS[|c.s.cur.values|]);
      && n == |g.h| - |c.h| && Steps(bus, c, n) == Ok(c1)
      && exists p :: 0 <= p < SII_MAX_POLLS && After(c.(s := c.s.(phase := Poll, polls := 0)), p, g.r.value, g.h, c1)
  {
    hide Steps, StepOn, TakeWord, SiiPoll, SiiStatus;
    var h := c.h + [Ask(c.s)];
    var r := bus(h).value;
    var c0 := Conf(c.s.(phase := Poll, polls := 0), h, c.out);
    OneStep(bus, c, r, c0.s);
    n, c1 := PollsMatch(bus, c0, SII_POLLS);
    StepsAdd(bus, c, 1, n, c0);
    n := n + 1;
    var g := SiiPoll(bus, h, c.s.cur.ring, SII_POLLS);
    var p :| 0 <= p < SII_MAX_POLLS && After(c0, p, g.r.value, g.h, c1);
    assert After(c.(s := c.s.(phase := Poll, polls := 0)), p, g.r.value, g.h, c1);
  }

  /** `c1` is `c` once its current slave, with EEPROM words `values`, has been published. */
  predicate Published(c: Conf, values: seq<dword>, h: seq<Req>, c1: Conf)
    requires |values| == FIELDS
  {
    var next := c.s.cur.ring + 1;
    && c1.h == h && c1.out == c.out + [InfoOf(c.s.cur.(values := values))]
    && if next < c.s.count && next < MAX_SLAVES
       then c1.s == c.s.(stage := Apwr, cur := Begin(next), phase := Command, polls := 0)
       else c1.s.stage == Done
  }

  lemma {:induction false} FieldsMatch(bus: Bus, c: Conf) returns (n: nat, c1: Conf)
    requires c.Valid() && c.s.stage == Sii && c.s.phase == Command && c.s.polls == 0
    requires SiiFields(bus, c.h, c.s.cur.ring, c.s.cur.values).r.Ok?
    ensures var g := SiiFields(bus, c.h, c.s.cur.ring, c.s.cur.values);
      n == |g.h| - |c.h| && Steps(bus, c, n) == Ok(c1) && Published(c, g.r.value, g.h, c1)
    decreases FIELDS - |c.s.cur.values|
  {
    hide Steps, SiiRead;
    var g := SiiRead(bus, c.h, c.s.cur.ring, SII_WORDS[|c.s.cur.values|]);
    var values := c.s.cur.values + [g.r.value];
    n, c1 := WordMatches(bus, c);
    if |values| < FIELDS {
      var m, c2 := FieldsMatch(bus, c1);
      StepsAdd(bus, c, n, m, c1);
      n, c1 := n + m, c2;
    } else {
      assert SiiFields(bus, g.h, c.s.cur.ring, values) == Got(Ok(values), g.h);
    }
  }

  lemma SlaveMatches(bus: Bus, c: Conf) returns (n: nat, c1: Conf)
    requires c.Valid() && c.s.stage == Apwr && c.s.cur == Begin(c.s.cur.ring) && c.s.phase == Command && c.s.polls == 0
    requires ScanSlave(bus, c.h, c.s.cur.ring).r.Ok?
    ensures var g, next := ScanSlave(bus, c.h, c.s.cur.ring), c.s.cur.ring + 1;
      && n == |g.h| - |c.h| && Steps(bus, c, n) == Ok(c1)
      && c1.h == g.h && c1.out == c.out + [g.r.value]
      && if next < c.s.count && next < MAX_SLAVES then c1.s == c.s.(cur := Begin(next)) else c1.s.stage == Done
  {
    hide Steps, SiiFields, InfoOf;
    var ring := c.s.cur.ring;
    var a := One(bus, c.h, AssignReq(ring));
    var ca := Conf(c.s.(stage := Al), a.h, c.out);
    OneStep(bus, c, a.r.value, ca.s);
    var al := One(bus, a.h, AlReq(ring));
    var cal := Conf(ca.s.(stage := Dl, cur := WithAl(ca.s.cur, al.r.value)), al.h, c.out);
    OneStep(bus, ca, al.r.value, cal.s);
    var dl := One(bus, al.h, DlReq(ring));
    var cdl := Conf(cal.s.(stage := Sii, cur := WithDl(cal.s.cur, dl.r.value), phase := Command, polls := 0), dl.h,
      c.out);
    OneStep(bus, cal, dl.r.value, cdl.s);
    n, c1 := FieldsMatch(bus, cdl);
    StepsAdd(bus, c, 1, 1, ca);
    StepsAdd(bus, c, 2, 1, cal);
    StepsAdd(bus, c, 3, n, cdl);
    n := n + 3;
  }

  /** How many slaves the stepped scan reads when it counted `count`. */
  function Limit(count: word): word { if count < MAX_SLAVES then count else MAX_SLAVES }

  lemma {:induction false} SlavesMatch(bus: Bus, c: Conf) returns (n: nat, c1: Conf)
    requires |c.out| < Limit(c.s.count) && ScanSlaves(bus, c.h, Limit(c.s.count), c.out).r.Ok?
    requires c.Valid() && c.s.stage == Apwr && c.s.cur == Begin(|c.out|) && c.s.phase == Command && c.s.polls == 0
    ensures var g := ScanSlaves(bus, c.h, Limit(c.s.count), c.out);
      n == |g.h| - |c.h| && Steps(bus, c, n) == Ok(c1) && c1.s.stage == Done && c1.h == g.h && c1.out == g.r.value
    decreases Limit(c.s.count) - |c.out|
  {
    hide Steps, ScanSlave;
    n, c1 := SlaveMatches(bus, c);
    if |c1.out| < Limit(c.s.count) {
      var m, c2 := SlavesMatch(bus, c1);
      StepsAdd(bus, c, n, m, c1);
      n, c1 := n + m, c2;
    }
  }

  lemma SlavePlace(bus: Bus, h: seq<Req>, ring: word)
    requires ScanSlave(bus, h, ring).r.Ok? && ring < MAX_SLAVES
    ensures var i := ScanSlave(bus, h, ring).r.value; i.ringPos == ring && i.station == ring + 1
  {
    hide One, SiiFields;
  }

  lemma {:induction false} ScanInOrder(bus: Bus, h: seq<Req>, count: word, found: seq<SlaveInfo>)
    requires |found| <= count && InOrder(found) && |found| <= MAX_SLAVES
    ensures var g := ScanSlaves(bus, h, count, found); g.r.Ok? ==>
      InOrder(g.r.value) && |g.r.value| == count <= MAX_SLAVES
    decreases count - |found|
  {
    hide ScanSlave;
    if |found| < count && |found| < MAX_SLAVES {
      var g := ScanSlave(bus, h, |found|);
      if g.r.Ok? {
        SlavePlace(bus, h, |found|);
        ScanInOrder(bus, g.h, count, found + [g.r.value]);
      }
    }
  }

  /** The count, the clear, then the slaves: the stepped scan reads as many as were counted,
      but never more than 32, each by the requests of the blocking scan of that slave. */
  lemma SteppedReads(bus: Bus)
    requires bus([CountReq()]).Some? && bus([CountReq()]).value.wkc > 0 && bus([CountReq(), ClearReq()]).Some?
    requires ScanSlaves(bus, [CountReq(), ClearReq()], Limit(bus([CountReq()]).value.wkc), []).r.Ok?
    ensures var g := ScanSlaves(bus, [CountReq(), ClearReq()], Limit(bus([CountReq()]).value.wkc), []);
      && Ends(bus, g.h, g.r.value) && InOrder(g.r.value) && |g.r.value| == Limit(bus([CountReq()]).value.wkc)
  {
    hide Steps, ScanSlaves;
    var r := bus([CountReq()]).value;
    var c0 := Conf(Start(), [], []);
    assert [] + [CountReq()] == [CountReq()] && [CountReq()] + [ClearReq()] == [CountReq(), ClearReq()];
    ScanInOrder(bus, [CountReq(), ClearReq()], Limit(r.wkc), []);
    var c1 := Conf(c0.s.(count := r.wkc, stage := Clear), [CountReq()], []);
    OneStep(bus, c0, r, c1.s);
    var c2 := Conf(c1.s.(stage := Apwr, cur := Begin(0)), [CountReq(), ClearReq()], []);
    OneStep(bus, c1, bus([CountReq(), ClearReq()]).value, c2.s);
    var n, c := SlavesMatch(bus, c2);
    StepsAdd(bus, c0, 1, 1, c1);
    StepsAdd(bus, c0, 2, n, c2);
  }

  /** Refinement: wherever the blocking scan finds at least one slave, the stepped scan asks
      the same requests in the same order, is done after exactly as many exchanges, and its
      caller has drained the same slaves, one at a time, in ring order. */
  lemma SteppedRefinesBlocking(bus: Bus)
    requires ScanBus(bus).r.Ok? && ScanBus(bus).r.value != []
    requires bus([CountReq(), ClearReq()]).Some?
    ensures var g := ScanBus(bus); Ends(bus, g.h, g.r.value) && InOrder(g.r.value) && |g.r.value| <= MAX_SLAVES
  {
    hide Ends, ScanSlaves;
    assert [CountReq()] + [ClearReq()] == [CountReq(), ClearReq()];
    var count := bus([CountReq()]).value.wkc;
    ScanInOrder(bus, [CountReq(), ClearReq()], count, []);
    SteppedReads(bus);
  }

  /** The two part ways on an empty bus: only the blocking scan still clears addresses. */
  lemma EmptyBus(bus: Bus)
    requires bus([CountReq()]).Some? && bus([CountReq()]).value.wkc == 0
    ensures ScanBus(bus) == Got(Ok([]), [CountReq(), ClearReq()]) && Ends(bus, [CountReq()], [])
  {
    assert [] + [CountReq()] == [CountReq()] && [CountReq()] + [ClearReq()] == [CountReq(), ClearReq()];
    OneStep(bus, Conf(Start(), [], []), bus([CountReq()]).value, Start().(stage := Done));
  }

  /** And on more than 32 slaves: the blocking scan fails, whatever else happens; the stepped
      one is done after the 32nd and has published just those. */
  lemma TooMany(bus: Bus)
    requires bus([CountReq()]).Some? && bus([CountReq()]).value.wkc > MAX_SLAVES
    ensures ScanBus(bus).r.Err?
    ensures var g := ScanSlaves(bus, [CountReq(), ClearReq()], MAX_SLAVES, []);
      bus([CountReq(), ClearReq()]).Some? && g.r.Ok? ==>
        Ends(bus, g.h, g.r.value) && InOrder(g.r.value) && |g.r.value| == MAX_SLAVES
  {
    hide ScanSlaves, Ends;
    assert [CountReq()] + [ClearReq()] == [CountReq(), ClearReq()];
    ScanInOrder(bus, [CountReq(), ClearReq()], bus([CountReq()]).value.wkc, []);
    if bus([CountReq(), ClearReq()]).Some? && ScanSlaves(bus, [CountReq(), ClearReq()], MAX_SLAVES, []).r.Ok? {
      SteppedReads(bus);
    }
  }

  /** Both scans of this bus succeed, by the same requests and with the same slaves. */
  ghost predicate Agree(bus: Bus) {
    var g := ScanBus(bus);
    g.r.Ok? && exists h, out :: Ends(bus, h, out) && h == g.h && out == g.r.value
  }

  /** Where the slaves the stepped scan would read can all be read, the two scans agree exactly
      on a bus of one to 32 slaves. */
  lemma AgreeIff(bus: Bus)
    requires bus([CountReq()]).Some? && bus([CountReq(), ClearReq()]).Some?
    requires ScanSlaves(bus, [CountReq(), ClearReq()], Limit(bus([CountReq()]).value.wkc), []).r.Ok?
    ensures Agree(bus) <==> 1 <= bus([CountReq()]).value.wkc <= MAX_SLAVES
  {
    hide ScanSlaves, Steps;
    assert [CountReq()] + [ClearReq()] == [CountReq(), ClearReq()];
    var count := bus([CountReq()]).value.wkc;
    if count == 0 {
      EmptyBus(bus);
      if Agree(bus) {
        var g := ScanBus(bus);
        EndIsUnique(bus, Conf(Start(), [], []), 1, Steps(bus, Conf(Start(), [], []), 1).value,
          2, Steps(bus, Conf(Start(), [], []), 2).value);
      }
    } else if count > MAX_SLAVES {
      TooMany(bus);
    } else {
      SteppedReads(bus);
      var g := ScanBus(bus);
      assert Ends(bus, g.h, g.r.value);
    }
  }
}
