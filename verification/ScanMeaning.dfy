/** What a scanned slave's fields mean (src/ethercat/fsm_scan.rs:262-346,
    src/ethercat/fsm_slave_scan.rs:26-100): the words of its own EEPROM and its own registers,
    on a bus of slaves that take their addresses and serve their registers as ETG.1000.4 says. */
module ScanMeaning {
  import opened Bytes
  import opened Config
  import opened Datagram
  import opened Device
  import opened Ecrt
  import opened ScanSpec

  // ---- The slaves ----

  /** A slave: its EEPROM by word address, its AL status byte, its twelve bytes of data-link
      information, and the station address it came up with. */
  datatype Unit = Unit(eeprom: word -> word, al: byte, dl: seq<byte>, station: word) {
    predicate Valid() { |dl| == 12 }

    function Dword(w: word): dword { eeprom(w) + 0x1_0000 * eeprom((w + 1) % 0x1_0000) }
  }

  /** An auto-increment address, counted up by every slave it passes, arrives as zero. */
  predicate CountsToZero(adp: word, i: nat) { (adp + i) % 0x1_0000 == 0 }

  /** The station address of the slave at ring position `i` after the requests `h`: the last
      one written to register 0x0010 of all slaves, of the one whose position the request
      counts up to zero, or of its present address. */
  function StationOf(u: Unit, i: nat, h: seq<Req>): word {
    if h == [] then u.station
    else
      var q, before := h[|h| - 1], StationOf(u, i, h[..|h| - 1]);
      if q.ado == 0x0010 && |q.payload| == 2
        && (q.cmd == 0x08 || (q.cmd == 0x02 && CountsToZero(q.adp, i)) || (q.cmd == 0x05 && q.adp == before))
      then FromLe16(q.payload[0], q.payload[1])
      else before
  }

  /** The EEPROM word last asked for: a read command at 0x0502 with the address after it. */
  function Selected(u: Unit, i: nat, h: seq<Req>): Option<word> {
    if h == [] then None
    else
      var q, before := h[|h| - 1], h[..|h| - 1];
      if q.cmd == 0x05 && q.ado == 0x0502 && |q.payload| == 4 && q.payload[1] == 0x01
        && q.adp == StationOf(u, i, before)
      then Some(FromLe16(q.payload[2], q.payload[3]))
      else Selected(u, i, before)
  }

  /** What the slave puts into a read of its registers: AL status at 0x0130, data-link
      information from 0x0000 on, and at 0x0502, once it is neither busy nor in error, the
      EEPROM words selected in bytes 6 to 9. */
  predicate Serves(u: Unit, sel: Option<word>, ado: word, data: seq<byte>) {
    && (ado == 0x0130 && data != [] ==> data[0] == u.al)
    && (ado == 0x0000 && |data| <= |u.dl| ==> data == u.dl[..|data|])
    && (ado == 0x0502 && |data| == 10 && sel.Some? && Settled(data[1]) ==>
      && FromLe16(data[6], data[7]) == u.eeprom(sel.value)
      && FromLe16(data[8], data[9]) == u.eeprom((sel.value + 1) % 0x1_0000))
  }

  /** Not busy, no read under way, no error. */
  predicate Settled(status: byte) { status < 0x80 && status % 2 == 0 && (status / 0x20) % 2 == 0 }

  /** A slave under this station address. */
  predicate Hit(units: seq<Unit>, h: seq<Req>, i: nat, station: word) {
    i < |units| && StationOf(units[i], i, h) == station
  }

  /** The only one under it. */
  ghost predicate OnlyHit(units: seq<Unit>, h: seq<Req>, i: nat, station: word) {
    Hit(units, h, i, station) && forall k: nat :: Hit(units, h, k, station) ==> k == i
  }

  /** The reply to the last of the requests `h` is one of these slaves': nobody answers for an
      address nobody has; the slave that has it answers with what it holds; and a broadcast
      read is counted by all. */
  ghost predicate Fair(units: seq<Unit>, h: seq<Req>, r: Reply)
    requires h != []
  {
    var q, before := h[|h| - 1], h[..|h| - 1];
    && (q.cmd == 0x02 && (forall i :: 0 <= i < |units| ==> !CountsToZero(q.adp, i)) ==> r.wkc == 0)
    && (q.cmd == 0x04 && (forall i: nat :: !Hit(units, before, i, q.adp)) ==> r.wkc == 0)
    && (q.cmd == 0x04 && r.wkc > 0 ==>
      && |r.data| == |q.payload|
      && forall i: nat :: OnlyHit(units, before, i, q.adp) ==>
        Serves(units[i], Selected(units[i], i, before), q.ado, r.data))
    && (q.cmd == 0x07 ==> r.wkc == |units|)
  }

  /** The bus is made of these slaves. */
  ghost predicate Honest(bus: Bus, units: seq<Unit>) {
    && |units| < 0x1_0000 && (forall u <- units :: u.Valid())
    && forall h :: h != [] && bus(h).Some? ==> Fair(units, h, bus(h).value)
  }

  lemma HonestSize(bus: Bus, units: seq<Unit>)
    requires Honest(bus, units)
    ensures |units| <= 0xFFFF
  {
  }

  // ---- What the scan is to report ----

  /** Every field from its own place: vendor at EEPROM word 0x08, product at 0x0A, revision at
      0x0C, the receive mailbox at 0x18 and 0x19, the send mailbox at 0x1A and 0x1B, the
      protocols at 0x1C with CoE as bit 2. */
  predicate Describes(info: SlaveInfo, u: Unit, i: nat) {
    && u.Valid() && info.ringPos == i && info.station == i + 1
    && info.alState == u.al % 16
    && info.baseType == u.dl[0] && info.fmmuCount == u.dl[4] && info.syncCount == u.dl[5]
    && info.vendor == u.eeprom(0x08) + 0x1_0000 * u.eeprom(0x09)
    && info.product == u.eeprom(0x0A) + 0x1_0000 * u.eeprom(0x0B)
    && info.revision == u.eeprom(0x0C) + 0x1_0000 * u.eeprom(0x0D)
    && info.rxOffset == u.eeprom(0x18) && info.rxSize == u.eeprom(0x19)
    && info.txOffset == u.eeprom(0x1A) && info.txSize == u.eeprom(0x1B)
    && info.protocols == u.eeprom(0x1C) && (info.coe <==> (u.eeprom(0x1C) / 4) % 2 == 1)
  }

  /** The list describes the first slaves of the ring. */
  ghost predicate Lists(out: seq<SlaveInfo>, units: seq<Unit>) {
    && |out| <= |units| && (forall u <- units :: u.Valid())
    && forall i :: 0 <= i < |out| ==> Describes(out[i], units[i], i)
  }

  // ---- Addresses ----

  /** The first `k` slaves have been given their stations, the others have none. */
  ghost predicate Addressed(units: seq<Unit>, h: seq<Req>, k: nat) {
    forall i :: 0 <= i < |units| ==> StationOf(units[i], i, h) == if i < k then (i + 1) % 0x1_0000 else 0
  }

  lemma Snoc(h: seq<Req>, q: Req)
    ensures (h + [q])[..|h + [q]| - 1] == h && (h + [q])[|h|] == q
  {
  }

  lemma Cleared(units: seq<Unit>, h: seq<Req>)
    ensures Addressed(units, h + [ClearReq()], 0)
  {
    Snoc(h, ClearReq());
  }

  lemma Assigned(units: seq<Unit>, h: seq<Req>, k: nat)
    requires Addressed(units, h, k) && k < |units| < 0x1_0000
    ensures Addressed(units, h + [AssignReq(k)], k + 1)
  {
    hide CountsToZero, AutoincAdp, StationOf;
    forall i | 0 <= i < |units|
      ensures StationOf(units[i], i, h + [AssignReq(k)]) == if i < k + 1 then (i + 1) % 0x1_0000 else 0
    {
      CountsUp(k, i);
      StationAssigned(units[i], i, h, k);
    }
  }

  lemma StationAssigned(u: Unit, i: nat, h: seq<Req>, k: word)
    ensures StationOf(u, i, h + [AssignReq(k)])
      == if CountsToZero(AutoincAdp(k), i) then Station(k) else StationOf(u, i, h)
  {
    hide CountsToZero, AutoincAdp;
    Snoc(h, AssignReq(k));
  }

  /** A request counts up to zero at the one slave it is meant for. */
  lemma CountsUp(ring: word, i: word)
    ensures CountsToZero(AutoincAdp(ring), i) <==> i == ring
  {
  }

  /** Requests that write no address. */
  lemma AddressKept(units: seq<Unit>, h: seq<Req>, q: Req, k: nat)
    requires Addressed(units, h, k) && q.ado != 0x0010
    ensures Addressed(units, h + [q], k)
  {
    Snoc(h, q);
  }

  lemma OneHit(units: seq<Unit>, h: seq<Req>, k: nat)
    requires Addressed(units, h, k + 1) && k < |units| && k < 0x1_0000 - 1
    ensures OnlyHit(units, h, k, Station(k))
  {
    forall i: nat | Hit(units, h, i, Station(k))
      ensures i == k
    {
    }
  }

  // ---- The stepped scan ----

  /** What has been gathered of the current slave is that slave's. */
  ghost predicate Gathered(s: Scan, h: seq<Req>, u: Unit)
    requires s.Valid() && u.Valid()
  {
    && (s.stage == Dl || s.stage == Sii ==> s.cur.al == u.al % 16)
    && (s.stage == Sii ==>
      && s.cur.base == u.dl[0] && s.cur.fmmus == u.dl[4] && s.cur.syncs == u.dl[5]
      && (forall j :: 0 <= j < |s.cur.values| ==> s.cur.values[j] == u.Dword(SII_WORDS[j]))
      && (s.phase == Poll ==> Selected(u, s.cur.ring, h) == Some(SII_WORDS[|s.cur.values|])))
  }

  /** Where a scan of these slaves stands. */
  ghost predicate Sound(units: seq<Unit>, c: Conf)
    requires c.Valid()
  {
    && |units| < 0x1_0000 && Lists(c.out, units)
    && (c.s.stage in {Count, Clear} ==> c.out == [])
    && (c.s.stage != Count ==> c.s.count == |units|)
    && (c.s.stage == Done ==> |c.out| == Limit(|units|))
    && (c.s.stage in {Apwr, Al, Dl, Sii} ==> |c.out| == c.s.cur.ring)
    && (c.s.stage == Apwr ==> Addressed(units, c.h, c.s.cur.ring))
    && (c.s.stage in {Al, Dl, Sii} ==>
      && c.s.cur.ring < |units| && Addressed(units, c.h, c.s.cur.ring + 1)
      && Gathered(c.s, c.h, units[c.s.cur.ring]))
  }

  /** A read that was answered holds what the slave serves. */
  lemma Served(bus: Bus, units: seq<Unit>, h: seq<Req>, k: nat, q: Req)
    requires Honest(bus, units) && Addressed(units, h, k + 1) && k < |units| && k < 0xFFFF
    requires q.cmd == 0x04 && q.adp == Station(k) && bus(h + [q]).Some? && bus(h + [q]).value.wkc > 0
    ensures var r := bus(h + [q]).value;
      |r.data| == |q.payload| && Serves(units[k], Selected(units[k], k, h), q.ado, r.data)
  {
    hide StationOf, Selected, Serves;
    Snoc(h, q);
    OneHit(units, h, k);
    assert Fair(units, h + [q], bus(h + [q]).value);
  }

  /** The assignment is only answered where there is a slave. */
  lemma SomeoneThere(bus: Bus, units: seq<Unit>, h: seq<Req>, k: word)
    requires Honest(bus, units) && bus(h + [AssignReq(k)]).Some? && bus(h + [AssignReq(k)]).value.wkc > 0
    ensures k < |units|
  {
    hide CountsToZero, AutoincAdp;
    var q := AssignReq(k);
    Snoc(h, q);
    assert Fair(units, h + [q], bus(h + [q]).value);
    var i :| 0 <= i < |units| && CountsToZero(q.adp, i);
    CountsUp(k, i);
  }

  lemma WordChosen(u: Unit, h: seq<Req>, ring: word, w: word)
    requires StationOf(u, ring, h) == Station(ring)
    ensures Selected(u, ring, h + [SiiReq(ring, w)]) == Some(w) && SiiReq(ring, w).ado != 0x0010
  {
    hide StationOf;
    Snoc(h, SiiReq(ring, w));
  }

  /** A poll changes nothing. */
  lemma WordStays(u: Unit, i: nat, h: seq<Req>, ring: word)
    ensures Selected(u, i, h + [PollReq(ring)]) == Selected(u, i, h)
  {
    hide StationOf;
    Snoc(h, PollReq(ring));
  }

  lemma WordIs(u: Unit, w: word, r: Reply)
    requires SiiStatus(r).Ready? && |r.data| == 10 && Serves(u, Some(w), 0x0502, r.data)
    ensures SiiStatus(r).v == u.Dword(w)
  {
  }

  /** All that was gathered is this slave's. */
  ghost predicate Complete(c: Cur, u: Unit)
    requires |c.values| == FIELDS
  {
    && u.Valid() && (forall j :: 0 <= j < FIELDS ==> c.values[j] == u.Dword(SII_WORDS[j]))
    && c.al == u.al % 16 && c.base == u.dl[0] && c.fmmus == u.dl[4] && c.syncs == u.dl[5]
  }

  /** The six EEPROM words are the fields. */
  lemma FieldsAre(u: Unit, c: Cur)
    requires |c.values| == FIELDS && c.ring < 0xFFFF && Complete(c, u)
    ensures Describes(InfoOf(c), u, c.ring)
  {
    assert c.values[0] == u.Dword(0x08) && c.values[1] == u.Dword(0x0A) && c.values[2] == u.Dword(0x0C);
    assert c.values[3] == u.Dword(0x18) && c.values[4] == u.Dword(0x1A) && c.values[5] == u.Dword(0x1C);
  }

  /** Every answered request keeps it so. */
  lemma SoundStep(bus: Bus, units: seq<Unit>, c: Conf)
    requires c.Valid() && c.s.stage != Done && Honest(bus, units) && Sound(units, c) && StepOn(bus, c).Ok?
    ensures Sound(units, StepOn(bus, c).value)
  {
    hide StepOn, Sound, Honest;
    match c.s.stage
    case Count => CountStep(bus, units, c);
    case Clear => CountStep(bus, units, c);
    case Apwr => AssignStep(bus, units, c);
    case Al => RegisterStep(bus, units, c);
    case Dl => RegisterStep(bus, units, c);
    case Sii => if c.s.phase == Command { CommandStep(bus, units, c); } else { PollStep(bus, units, c); }
  }

  lemma CountStep(bus: Bus, units: seq<Unit>, c: Conf)
    requires c.Valid() && c.s.stage in {Count, Clear} && Honest(bus, units) && Sound(units, c) && StepOn(bus, c).Ok?
    ensures Sound(units, StepOn(bus, c).value)
  {
    hide Addressed, Lists, Serves, StationOf, Selected;
    var h := c.h + [Ask(c.s)];
    Snoc(c.h, Ask(c.s));
    assert Fair(units, h, bus(h).value);
    Cleared(units, c.h);
  }

  lemma AssignStep(bus: Bus, units: seq<Unit>, c: Conf)
    requires c.Valid() && c.s.stage == Apwr && Honest(bus, units) && Sound(units, c) && StepOn(bus, c).Ok?
    ensures Sound(units, StepOn(bus, c).value)
  {
    hide Addressed, AssignReq, Lists, Honest;
    SomeoneThere(bus, units, c.h, c.s.cur.ring);
    Assigned(units, c.h, c.s.cur.ring);
  }

  lemma RegisterStep(bus: Bus, units: seq<Unit>, c: Conf)
    requires c.Valid() && c.s.stage in {Al, Dl} && Honest(bus, units) && Sound(units, c) && StepOn(bus, c).Ok?
    ensures Sound(units, StepOn(bus, c).value)
  {
    hide Addressed, Describes, Honest, StationOf, Selected;
    var ring := c.s.cur.ring;
    AddressKept(units, c.h, Ask(c.s), ring + 1);
    Served(bus, units, c.h, ring, Ask(c.s));
    var u, r := units[ring], bus(c.h + [Ask(c.s)]).value;
    assert u in units;
    if c.s.stage == Al {
      assert At(r.data, 0) == u.al;
    } else {
      assert r.data == u.dl[..12];
      assert At(r.data, 0) == u.dl[0] && At(r.data, 4) == u.dl[4] && At(r.data, 5) == u.dl[5];
    }
  }

  lemma CommandStep(bus: Bus, units: seq<Unit>, c: Conf)
    requires c.Valid() && c.s.stage == Sii && c.s.phase == Command && Sound(units, c) && StepOn(bus, c).Ok?
    ensures Sound(units, StepOn(bus, c).value)
  {
    hide Lists, StationOf, Selected, SiiReq;
    var ring, w := c.s.cur.ring, SII_WORDS[|c.s.cur.values|];
    assert StationOf(units[ring], ring, c.h) == Station(ring);
    WordChosen(units[ring], c.h, ring, w);
    AddressKept(units, c.h, Ask(c.s), ring + 1);
    hide Addressed;
  }

  lemma PollStep(bus: Bus, units: seq<Unit>, c: Conf)
    requires c.Valid() && c.s.stage == Sii && c.s.phase == Poll && Honest(bus, units) && Sound(units, c)
    requires StepOn(bus, c).Ok?
    ensures Sound(units, StepOn(bus, c).value)
  {
    hide Lists, StationOf, Selected, Honest, Addressed, Serves, InfoOf, Describes, SiiStatus;
    var ring, h := c.s.cur.ring, c.h + [Ask(c.s)];
    var u, r := units[ring], bus(h).value;
    AddressKept(units, c.h, Ask(c.s), ring + 1);
    WordStays(u, ring, c.h, ring);
    match SiiStatus(r)
    case Retry =>
    case Ready(v) =>
      StatusRead(r);
      Served(bus, units, c.h, ring, Ask(c.s));
      WordIs(u, SII_WORDS[|c.s.cur.values|], r);
      WordTaken(units, c, h, v);
  }

  lemma StatusRead(r: Reply)
    requires SiiStatus(r).Ready?
    ensures r.wkc > 0
  {
  }

  lemma WordTaken(units: seq<Unit>, c: Conf, h: seq<Req>, v: dword)
    requires c.Valid() && c.s.stage == Sii && c.s.phase == Poll && Sound(units, c)
    requires var ring := c.s.cur.ring;
      Addressed(units, h, ring + 1) && v == units[ring].Dword(SII_WORDS[|c.s.cur.values|])
    ensures var s := TakeWord(c.s, v);
      Sound(units, Conf(s.(completed := None), h, if s.completed.Some? then c.out + [s.completed.value] else c.out))
  {
    hide StationOf, Selected, Addressed, InfoOf, Describes;
    var ring, values := c.s.cur.ring, c.s.cur.values + [v];
    var u := units[ring];
    assert u in units;
    forall j | 0 <= j < |values|
      ensures values[j] == u.Dword(SII_WORDS[j])
    {
    }
    if |values| == FIELDS {
      FieldsAre(u, c.s.cur.(values := values));
    }
  }

  lemma {:induction false} SoundSteps(bus: Bus, units: seq<Unit>, c: Conf, n: nat)
    requires c.Valid() && Honest(bus, units) && Sound(units, c) && Steps(bus, c, n).Ok?
    ensures Sound(units, Steps(bus, c, n).value)
    decreases n
  {
    hide StepOn, Sound, Honest;
    if n == 0 || c.s.stage == Done {
    } else {
      SoundStep(bus, units, c);
      SoundSteps(bus, units, StepOn(bus, c).value, n - 1);
    }
  }

  lemma SoundStart(units: seq<Unit>)
    requires |units| < 0x1_0000 && forall u <- units :: u.Valid()
    ensures Sound(units, Conf(Start(), [], []))
  {
  }

  /** However a stepped scan of a bus of these slaves ends, it has listed all of them, up to
      32, field by field. */
  lemma SteppedDescribes(bus: Bus, units: seq<Unit>, h: seq<Req>, out: seq<SlaveInfo>)
    requires Honest(bus, units) && Ends(bus, h, out)
    ensures Lists(out, units) && |out| == if |units| < 32 then |units| else 32
  {
    hide Steps, Lists;
    SoundStart(units);
    SoundSteps(bus, units, Conf(Start(), [], []), |h|);
  }

  /** And so has a blocking scan that succeeds: all of them. */
  lemma BlockingDescribes(bus: Bus, units: seq<Unit>)
    requires Honest(bus, units) && ScanBus(bus).r.Ok?
    ensures Lists(ScanBus(bus).r.value, units) && |ScanBus(bus).r.value| == |units|
  {
    hide Steps, Lists, ScanSlaves, StationOf, Serves, Selected;
    var h, count := [CountReq(), ClearReq()], bus([CountReq()]).value.wkc;
    assert [CountReq()] + [ClearReq()] == h;
    assert Fair(units, [CountReq()], bus([CountReq()]).value);
    ScanInOrder(bus, h, count, []);
    if count > 0 {
      var c := Conf(Scan(Apwr, count, Begin(0), Command, 0, None), h, []);
      Cleared(units, [CountReq()]);
      assert Sound(units, c) by {
        NothingListed(units);
      }
      var n, c1 := SlavesMatch(bus, c);
      SoundSteps(bus, units, c, n);
    } else {
      NothingListed(units);
      NothingScanned(bus, h);
    }
  }

  lemma NothingListed(units: seq<Unit>)
    requires forall u <- units :: u.Valid()
    ensures Lists([], units)
  {
  }

  lemma NothingScanned(bus: Bus, h: seq<Req>)
    ensures ScanSlaves(bus, h, 0, []) == Got(Ok([]), h)
  {
  }

  /** What a scan should say of a slave. */
  function InfoFor(u: Unit, i: nat): (info: SlaveInfo)
    requires u.Valid() && i < 0xFFFF
    ensures Describes(info, u, i)
  {
    SlaveInfo(i, i + 1, u.al % 16, u.dl[0], u.dl[4], u.dl[5], u.Dword(0x08), u.Dword(0x0A), u.Dword(0x0C),
      u.eeprom(0x18), u.eeprom(0x19), u.eeprom(0x1A), u.eeprom(0x1B), u.eeprom(0x1C), (u.eeprom(0x1C) / 4) % 2 == 1)
  }

  /** One slave read by the blocking scan, at any point where the slaves before it have their
      addresses. */
  lemma SlaveDescribes(bus: Bus, units: seq<Unit>, h: seq<Req>, ring: word)
    requires Honest(bus, units) && ring < MAX_SLAVES && ring <= |units| && Addressed(units, h, ring)
    requires ScanSlave(bus, h, ring).r.Ok?
    ensures ring < |units| && Describes(ScanSlave(bus, h, ring).r.value, units[ring], ring)
  {
    hide Steps, ScanSlave, Addressed, Serves, StationOf, Selected, Describes, SII_WORDS;
    assert forall i :: 0 <= i < ring ==> units[i] in units;
    var out := seq(ring, i requires 0 <= i < ring => InfoFor(units[i], i));
    var c := Conf(Scan(Apwr, |units|, Begin(ring), Command, 0, None), h, out);
    var n, c1 := SlaveMatches(bus, c);
    SoundSteps(bus, units, c, n);
    assert c1.out[ring] == ScanSlave(bus, h, ring).r.value;
  }

  // ---- Slaves in working order ----

  /** The first slave from `i` on under this address. */
  function Find(units: seq<Unit>, h: seq<Req>, station: word, i: nat): (k: nat)
    requires i <= |units|
    ensures i <= k <= |units| && (k < |units| ==> Hit(units, h, k, station))
    ensures forall j: nat :: i <= j < k ==> !Hit(units, h, j, station)
    decreases |units| - i
  {
    if i == |units| || Hit(units, h, i, station) then i else Find(units, h, station, i + 1)
  }

  /** What the slave answers a read with: never busy, never in error. */
  function Image(u: Unit, sel: Option<word>, ado: word, n: nat): (data: seq<byte>)
    ensures |data| == n
  {
    if ado == 0x0130 && n > 0 then [u.al] + Zeros(n - 1)
    else if ado == 0x0000 && n <= |u.dl| then u.dl[..n]
    else if ado == 0x0502 && n == 10 && sel.Some? then
      Zeros(6) + Le16(u.eeprom(sel.value)) + Le16(u.eeprom((sel.value + 1) % 0x1_0000))
    else Zeros(n)
  }

  function Working(units: seq<Unit>, h: seq<Req>): Reply
    requires h != [] && |units| < 0x1_0000
  {
    var q, before := h[|h| - 1], h[..|h| - 1];
    var k := Find(units, before, q.adp, 0);
    if q.cmd == 0x02 then
      Reply(q.cmd, 0, if exists i :: 0 <= i < |units| && CountsToZero(q.adp, i) then 1 else 0, q.payload)
    else if q.cmd == 0x04 then
      if k < |units| then Reply(q.cmd, 0, 1, Image(units[k], Selected(units[k], k, before), q.ado, |q.payload|))
      else Reply(q.cmd, 0, 0, q.payload)
    else if q.cmd == 0x05 then Reply(q.cmd, 0, if k < |units| then 1 else 0, q.payload)
    else Reply(q.cmd, 0, |units|, q.payload)
  }

  function WorkingBus(units: seq<Unit>): Bus
    requires |units| < 0x1_0000
  {
    h => if h == [] then None else Some(Working(units, h))
  }

  lemma ImageServes(u: Unit, sel: Option<word>, ado: word, n: nat)
    ensures Serves(u, sel, ado, Image(u, sel, ado, n))
  {
    if ado == 0x0502 && n == 10 && sel.Some? {
      var a, b := u.eeprom(sel.value), u.eeprom((sel.value + 1) % 0x1_0000);
      var d := Image(u, sel, ado, n);
      assert d[6] == a % 0x100 && d[7] == a / 0x100 && d[8] == b % 0x100 && d[9] == b / 0x100;
    }
  }

  lemma WorkingIsHonest(units: seq<Unit>)
    requires |units| < 0x1_0000 && forall u <- units :: u.Valid()
    ensures Honest(WorkingBus(units), units)
  {
    hide StationOf, Selected, Image, Serves;
    forall h: seq<Req> | h != []
      ensures Fair(units, h, Working(units, h))
    {
      var q, before := h[|h| - 1], h[..|h| - 1];
      var k := Find(units, before, q.adp, 0);
      if k < |units| {
        ImageServes(units[k], Selected(units[k], k, before), q.ado, |q.payload|);
      }
    }
  }

  lemma Found(units: seq<Unit>, h: seq<Req>, k: word)
    requires Addressed(units, h, k + 1) && k < |units| < 0x1_0000
    ensures Find(units, h, Station(k), 0) == k
  {
    hide StationOf;
    OneHit(units, h, k);
    var f := Find(units, h, Station(k), 0);
    assert Hit(units, h, k, Station(k));
  }

  /** A register of the slave is read at once. */
  lemma ReadAtOnce(units: seq<Unit>, h: seq<Req>, k: word, q: Req)
    requires Addressed(units, h, k + 1) && k < |units| < 0x1_0000 && q.adp == Station(k) && q.ado != 0x0010
      && q.cmd in {0x04, 0x05}
    ensures Working(units, h + [q]).wkc == 1 && Addressed(units, h + [q], k + 1)
    ensures q.cmd == 0x04 ==>
      Working(units, h + [q]).data == Image(units[k], Selected(units[k], k, h), q.ado, |q.payload|)
  {
    hide StationOf, Selected, Image, Find;
    Snoc(h, q);
    Found(units, h, k);
    AddressKept(units, h, q, k + 1);
  }

  lemma WordAtOnce(units: seq<Unit>, h: seq<Req>, k: word, w: word)
    requires Addressed(units, h, k + 1) && k < |units| < 0x1_0000
    ensures var g := SiiRead(WorkingBus(units), h, k, w); g.r.Ok? && Addressed(units, g.h, k + 1)
  {
    hide Addressed, Working, StationOf, Selected;
    var h1, u := h + [SiiReq(k, w)], units[k];
    ReadAtOnce(units, h, k, SiiReq(k, w));
    ReadAtOnce(units, h1, k, PollReq(k));
    assert StationOf(u, k, h) == Station(k) by {
      HasStation(units, h, k);
    }
    WordChosen(u, h, k, w);
    ImageReady(u, w, Working(units, h1 + [PollReq(k)]));
    hide SiiStatus;
    assert SiiPoll(WorkingBus(units), h1, k, SII_POLLS)
      == Got(Ok(SiiStatus(Working(units, h1 + [PollReq(k)])).v), h1 + [PollReq(k)]);
  }

  lemma HasStation(units: seq<Unit>, h: seq<Req>, k: word)
    requires Addressed(units, h, k + 1) && k < |units| < 0x1_0000
    ensures StationOf(units[k], k, h) == Station(k)
  {
    hide StationOf;
  }

  lemma ImageReady(u: Unit, w: word, r: Reply)
    requires r.wkc == 1 && r.data == Image(u, Some(w), 0x0502, 10)
    ensures SiiStatus(r).Ready?
  {
    hide Le16;
    assert r.data[1] == 0;
  }

  lemma {:induction false} FieldsAtOnce(units: seq<Unit>, h: seq<Req>, k: word, values: seq<dword>)
    requires Addressed(units, h, k + 1) && k < |units| < 0x1_0000 && |values| <= FIELDS
    ensures var g := SiiFields(WorkingBus(units), h, k, values); g.r.Ok? && Addressed(units, g.h, k + 1)
    decreases FIELDS - |values|
  {
    hide Addressed, SiiRead, WorkingBus;
    if |values| < FIELDS {
      WordAtOnce(units, h, k, SII_WORDS[|values|]);
      var g := SiiRead(WorkingBus(units), h, k, SII_WORDS[|values|]);
      FieldsAtOnce(units, g.h, k, values + [g.r.value]);
    }
  }

  lemma SlaveAtOnce(units: seq<Unit>, h: seq<Req>, k: word)
    requires Addressed(units, h, k) && k < |units| < 0x1_0000
    ensures var g := ScanSlave(WorkingBus(units), h, k); g.r.Ok? && Addressed(units, g.h, k + 1)
  {
    hide Addressed, SiiFields, Working, InfoOf;
    var a := h + [AssignReq(k)];
    Assigned(units, h, k);
    assert Working(units, a).wkc == 1 by {
      AssignedAtOnce(units, h, k);
    }
    ReadAtOnce(units, a, k, AlReq(k));
    var b := a + [AlReq(k)];
    ReadAtOnce(units, b, k, DlReq(k));
    FieldsAtOnce(units, b + [DlReq(k)], k, []);
  }

  lemma AssignedAtOnce(units: seq<Unit>, h: seq<Req>, k: word)
    requires k < |units| < 0x1_0000
    ensures Working(units, h + [AssignReq(k)]).wkc == 1
  {
    hide CountsToZero, AutoincAdp, Find;
    Snoc(h, AssignReq(k));
    CountsUp(k, k);
  }

  lemma {:induction false} SlavesAtOnce(units: seq<Unit>, h: seq<Req>, found: seq<SlaveInfo>)
    requires |units| <= MAX_SLAVES && |found| <= |units| && Addressed(units, h, |found|)
    ensures ScanSlaves(WorkingBus(units), h, |units|, found).r.Ok?
    decreases |units| - |found|
  {
    hide Addressed, ScanSlave, WorkingBus;
    if |found| < |units| {
      SlaveAtOnce(units, h, |found|);
      var g := ScanSlave(WorkingBus(units), h, |found|);
      SlavesAtOnce(units, g.h, found + [g.r.value]);
    }
  }

  /** Where all slaves are in working order, both scans list every one of one to 32 of them,
      field by field, by the same requests. */
  lemma WorkingBusIsListed(units: seq<Unit>)
    requires 1 <= |units| <= 32 && forall u <- units :: u.Valid()
    ensures var g := ScanBus(WorkingBus(units));
      && g.r.Ok? && Lists(g.r.value, units) && |g.r.value| == |units|
      && Ends(WorkingBus(units), g.h, g.r.value)
  {
    hide Lists, ScanSlaves, Steps, Addressed;
    var bus, h := WorkingBus(units), [CountReq()];
    Cleared(units, h);
    SlavesAtOnce(units, h + [ClearReq()], []);
    assert bus(h).value.wkc == |units|;
    WorkingIsHonest(units);
    BlockingDescribes(bus, units);
    SteppedRefinesBlocking(bus);
  }
}
