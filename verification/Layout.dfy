/** The image allocator of the configuration generator
    (scripts/generate_ethercat_config.py, `sm_bytes` and `resolve`), from already parsed
    slaves to image offsets, pins and motion fields. */
module Layout {
  import opened Bytes
  import opened Config
  import opened ProcessData

  /** One PDO entry of the bus description. */
  datatype Entry = Entry(bits: nat, halType: HalType, pin: Option<string>, motion: bool)

  /** The entries of all PDOs of one sync manager, in order. */
  type Sm = seq<Entry>

  datatype SlaveIn = SlaveIn(pid: nat, outSms: seq<Sm>, inSms: seq<Sm>, lead: nat)

  datatype Error = NoDevice | FewSyncManagers | UnalignedMotion | DuplicatePin

  datatype Resolved = Resolved(
    pins: seq<PinCfg>, fields: seq<StreamField>, outLogical: seq<nat>, inLogical: seq<nat>,
    outBytes: nat, image: nat, sampleBytes: nat, lead: nat, maxSamples: nat)

  datatype Result = Ok(cfg: Resolved) | Err(error: Error)

  // ---- Sizes ----

  function Bits(sm: Sm): nat {
    if sm == [] then 0 else Bits(sm[..|sm| - 1]) + sm[|sm| - 1].bits
  }

  function SmsBits(sms: seq<Sm>): nat {
    if sms == [] then 0 else SmsBits(sms[..|sms| - 1]) + Bits(sms[|sms| - 1])
  }

  function OutSize(s: SlaveIn): nat { SmsBits(s.outSms) / 8 }
  function InSize(s: SlaveIn): nat { SmsBits(s.inSms) / 8 }

  /** Where the next slave's output (input) region starts, relative to its half. */
  function OutBase(ss: seq<SlaveIn>): nat { if ss == [] then 0 else OutBase(ss[..|ss| - 1]) + OutSize(ss[|ss| - 1]) }
  function InBase(ss: seq<SlaveIn>): nat { if ss == [] then 0 else InBase(ss[..|ss| - 1]) + InSize(ss[|ss| - 1]) }

  /** `sm_bytes`: the summing loop. */
  method SmBytes(sms: seq<Sm>) returns (bytes: nat)
    ensures bytes == SmsBits(sms) / 8
  {
    var total := 0;
    for i := 0 to |sms|
      invariant total == SmsBits(sms[..i])
    {
      var sm := sms[i];
      assert sms[..i + 1][..i] == sms[..i];
      for k := 0 to |sm|
        invariant total == SmsBits(sms[..i]) + Bits(sm[..k])
      {
        assert sm[..k + 1][..k] == sm[..k];
        total := total + sm[k].bits;
      }
      assert sm[..|sm|] == sm;
    }
    assert sms[..|sms|] == sms;
    return total / 8;
  }

  // ---- What the walk places where ----

  /** The pin of one entry that starts `acc` bits into the region at byte `cursor`. */
  function PinAt(e: Entry, cursor: nat, acc: nat, dir: Direction): seq<PinCfg> {
    match e.pin
    case None => []
    case Some(name) => [PinCfg(name, cursor + acc / 8, acc % 8, e.bits, e.halType, dir)]
  }

  function SmPins(sm: Sm, cursor: nat, dir: Direction): seq<PinCfg> {
    if sm == [] then []
    else
      var n := |sm| - 1;
      SmPins(sm[..n], cursor, dir) + PinAt(sm[n], cursor, Bits(sm[..n]), dir)
  }

  function SmsPins(sms: seq<Sm>, cursor: nat, dir: Direction): seq<PinCfg> {
    if sms == [] then [] else SmsPins(sms[..|sms| - 1], cursor, dir) + SmPins(sms[|sms| - 1], cursor, dir)
  }

  function SlavePins(s: SlaveIn, outCursor: nat, inCursor: nat): seq<PinCfg> {
    SmsPins(s.outSms, outCursor, Output) + SmsPins(s.inSms, inCursor, Input)
  }

  function AllPins(ss: seq<SlaveIn>, total: nat): seq<PinCfg> {
    if ss == [] then []
    else
      var before := ss[..|ss| - 1];
      AllPins(before, total) + SlavePins(ss[|ss| - 1], OutBase(before), total + InBase(before))
  }

  predicate MotionOk(e: Entry, acc: nat) { e.motion ==> e.bits % 8 == 0 && acc % 8 == 0 }

  predicate SmMotionOk(sm: Sm) {
    forall i :: 0 <= i < |sm| ==> MotionOk(sm[i], Bits(sm[..i]))
  }

  predicate SlaveMotionOk(s: SlaveIn) { forall i :: 0 <= i < |s.outSms| ==> SmMotionOk(s.outSms[i]) }

  /** Motion fields and their running sample offset, as one fold over the outputs. */
  datatype Motion = Motion(fields: seq<StreamField>, sampleOff: nat)

  function AddField(m: Motion, e: Entry, cursor: nat, acc: nat): Motion {
    if e.motion
    then Motion(m.fields + [StreamField(m.sampleOff, cursor + acc / 8, e.bits / 8)], m.sampleOff + e.bits / 8)
    else m
  }

  function SmMotion(m: Motion, sm: Sm, cursor: nat): Motion {
    if sm == [] then m
    else
      var n := |sm| - 1;
      AddField(SmMotion(m, sm[..n], cursor), sm[n], cursor, Bits(sm[..n]))
  }

  function SmsMotion(m: Motion, sms: seq<Sm>, cursor: nat): Motion {
    if sms == [] then m else SmMotion(SmsMotion(m, sms[..|sms| - 1], cursor), sms[|sms| - 1], cursor)
  }

  function AllMotion(ss: seq<SlaveIn>): Motion {
    if ss == [] then Motion([], 0)
    else
      var before := ss[..|ss| - 1];
      SmsMotion(AllMotion(before), ss[|ss| - 1].outSms, OutBase(before))
  }

  // ---- The generator's loops ----

  /** The entry loop over one output sync manager. */
  method PlaceOutputs(sm: Sm, cursor: nat, pins0: seq<PinCfg>, m0: Motion)
    returns (pins: seq<PinCfg>, m: Motion, ok: bool)
    ensures ok == SmMotionOk(sm)
    ensures ok ==> pins == pins0 + SmPins(sm, cursor, Output) && m == SmMotion(m0, sm, cursor)
  {
    hide SmPins, SmMotion, Bits, PinAt, AddField, MotionOk;
    pins, m := pins0, m0;
    var acc := 0;
    SmNone(sm, cursor, m0);
    for i := 0 to |sm|
      invariant acc == Bits(sm[..i])
      invariant forall j :: 0 <= j < i ==> MotionOk(sm[j], Bits(sm[..j]))
      invariant pins == pins0 + SmPins(sm[..i], cursor, Output) && m == SmMotion(m0, sm[..i], cursor)
    {
      SmSnoc(sm, i, cursor, Output, m0);
      var e := sm[i];
      pins := pins + PinAt(e, cursor, acc, Output);
      if !MotionOk(e, acc) {
        return pins, m, false;
      }
      m := AddField(m, e, cursor, acc);
      acc := acc + e.bits;
    }
    assert sm[..|sm|] == sm;
    ok := true;
  }

  lemma SmNone(sm: Sm, cursor: nat, m: Motion)
    ensures Bits(sm[..0]) == 0 && SmPins(sm[..0], cursor, Output) == [] && SmMotion(m, sm[..0], cursor) == m
  {
  }

  lemma SmSnoc(sm: Sm, i: nat, cursor: nat, dir: Direction, m: Motion)
    requires i < |sm|
    ensures SmPins(sm[..i + 1], cursor, dir) == SmPins(sm[..i], cursor, dir) + PinAt(sm[i], cursor, Bits(sm[..i]), dir)
    ensures SmMotion(m, sm[..i + 1], cursor) == AddField(SmMotion(m, sm[..i], cursor), sm[i], cursor, Bits(sm[..i]))
    ensures Bits(sm[..i + 1]) == Bits(sm[..i]) + sm[i].bits
  {
    assert sm[..i + 1][..i] == sm[..i];
  }

  lemma SmsSnoc(sms: seq<Sm>, i: nat, cursor: nat, dir: Direction, m: Motion)
    requires i < |sms|
    ensures SmsPins(sms[..i + 1], cursor, dir) == SmsPins(sms[..i], cursor, dir) + SmPins(sms[i], cursor, dir)
    ensures SmsMotion(m, sms[..i + 1], cursor) == SmMotion(SmsMotion(m, sms[..i], cursor), sms[i], cursor)
  {
    assert sms[..i + 1][..i] == sms[..i];
  }

  /** The entry loop over one input sync manager. */
  method PlaceInputs(sm: Sm, cursor: nat, pins0: seq<PinCfg>) returns (pins: seq<PinCfg>)
    ensures pins == pins0 + SmPins(sm, cursor, Input)
  {
    pins := pins0;
    var acc := 0;
    for i := 0 to |sm|
      invariant acc == Bits(sm[..i])
      invariant pins == pins0 + SmPins(sm[..i], cursor, Input)
    {
      SmSnoc(sm, i, cursor, Input, Motion([], 0));
      hide SmPins, Bits, PinAt;
      pins := pins + PinAt(sm[i], cursor, acc, Input);
      acc := acc + sm[i].bits;
    }
    assert sm[..|sm|] == sm;
  }

  /** One turn of the slave loop. */
  method PlaceSlave(s: SlaveIn, outCursor: nat, inCursor: nat, pins0: seq<PinCfg>, m0: Motion)
    returns (pins: seq<PinCfg>, m: Motion, ok: bool)
    ensures ok == SlaveMotionOk(s)
    ensures ok ==> pins == pins0 + SlavePins(s, outCursor, inCursor) && m == SmsMotion(m0, s.outSms, outCursor)
  {
    hide SmsPins, SmsMotion;
    pins, m, ok := PlaceAllOutputs(s.outSms, outCursor, pins0, m0);
    if ok {
      pins := PlaceAllInputs(s.inSms, inCursor, pins);
    }
  }

  method PlaceAllOutputs(sms: seq<Sm>, cursor: nat, pins0: seq<PinCfg>, m0: Motion)
    returns (pins: seq<PinCfg>, m: Motion, ok: bool)
    ensures ok == forall i :: 0 <= i < |sms| ==> SmMotionOk(sms[i])
    ensures ok ==> pins == pins0 + SmsPins(sms, cursor, Output) && m == SmsMotion(m0, sms, cursor)
  {
    hide SmPins, SmMotion, SmMotionOk;
    pins, m := pins0, m0;
    for i := 0 to |sms|
      invariant forall j :: 0 <= j < i ==> SmMotionOk(sms[j])
      invariant pins == pins0 + SmsPins(sms[..i], cursor, Output) && m == SmsMotion(m0, sms[..i], cursor)
    {
      SmsSnoc(sms, i, cursor, Output, m0);
      hide SmsPins, SmsMotion;
      pins, m, ok := PlaceOutputs(sms[i], cursor, pins, m);
      if !ok {
        return;
      }
    }
    assert sms[..|sms|] == sms;
    ok := true;
  }

  method PlaceAllInputs(sms: seq<Sm>, cursor: nat, pins0: seq<PinCfg>) returns (pins: seq<PinCfg>)
    ensures pins == pins0 + SmsPins(sms, cursor, Input)
  {
    pins := pins0;
    for i := 0 to |sms|
      invariant pins == pins0 + SmsPins(sms[..i], cursor, Input)
    {
      SmsSnoc(sms, i, cursor, Input, Motion([], 0));
      hide SmsPins, SmPins;
      pins := PlaceInputs(sms[i], cursor, pins);
    }
    assert sms[..|sms|] == sms;
  }

  predicate Unique(pins: seq<PinCfg>) {
    forall i, j :: 0 <= i < j < |pins| ==> pins[i].name != pins[j].name
  }

  method CheckUnique(pins: seq<PinCfg>) returns (ok: bool)
    ensures ok == Unique(pins)
  {
    var seen: set<string> := {};
    for i := 0 to |pins|
      invariant Unique(pins[..i])
      invariant seen == set j | 0 <= j < i :: pins[j].name
    {
      if pins[i].name in seen {
        return false;
      }
      seen := seen + {pins[i].name};
    }
    assert pins[..|pins|] == pins;
    return true;
  }

  /** The ESI declares at least SM0..SM3 for the product. */
  predicate DeviceOk(s: SlaveIn, esi: map<nat, nat>) { s.pid in esi && esi[s.pid] >= 4 }

  /** Why a slave stops the loop, if it does. */
  function ErrorOf(s: SlaveIn, esi: map<nat, nat>): Option<Error> {
    if s.pid !in esi then Some(NoDevice)
    else if esi[s.pid] < 4 then Some(FewSyncManagers)
    else if !SlaveMotionOk(s) then Some(UnalignedMotion)
    else None
  }

  /** Slave `k` is the first in error, and `e` is its error. */
  predicate StopsAt(ss: seq<SlaveIn>, esi: map<nat, nat>, k: nat, e: Error) {
    k < |ss| && ErrorOf(ss[k], esi) == Some(e) && forall j :: 0 <= j < k ==> ErrorOf(ss[j], esi) == None
  }

  // ---- The motion stream's batch ----

  /** The deepest look-ahead any slave asks for. */
  function DeepestLead(ss: seq<SlaveIn>): nat {
    if ss == [] then 0
    else
      var l := DeepestLead(ss[..|ss| - 1]);
      if ss[|ss| - 1].lead > l then ss[|ss| - 1].lead else l
  }

  /** Eight cycles where no slave asks; nothing where nothing is streamed. */
  function DefaultLead(ss: seq<SlaveIn>, sampleBytes: nat): nat {
    if sampleBytes == 0 then 0 else if DeepestLead(ss) > 0 then DeepestLead(ss) else 8
  }

  /** Enough samples a frame to refill the whole look-ahead, up to the ring's depth. */
  function MaxSamples(lead: nat, sampleBytes: nat): (n: nat)
    ensures n <= 32 && (sampleBytes > 0 ==> n > 0)
  {
    if sampleBytes == 0 then 0 else if lead < 1 then 1 else if lead > 32 then 32 else lead
  }

  method FindLead(ss: seq<SlaveIn>) returns (lead: nat)
    ensures lead == DeepestLead(ss)
  {
    lead := 0;
    for k := 0 to |ss|
      invariant lead == DeepestLead(ss[..k])
    {
      assert ss[..k + 1][..k] == ss[..k];
      if ss[k].lead > lead {
        lead := ss[k].lead;
      }
    }
    assert ss[..|ss|] == ss;
  }

  ghost predicate Resolvable(ss: seq<SlaveIn>, esi: map<nat, nat>) {
    && (forall s <- ss :: DeviceOk(s, esi) && SlaveMotionOk(s))
    && Unique(AllPins(ss, OutBase(ss)))
  }

  lemma AllSnoc(ss: seq<SlaveIn>, k: nat, total: nat)
    requires k < |ss|
    ensures AllPins(ss[..k + 1], total)
      == AllPins(ss[..k], total) + SlavePins(ss[k], OutBase(ss[..k]), total + InBase(ss[..k]))
    ensures AllMotion(ss[..k + 1]) == SmsMotion(AllMotion(ss[..k]), ss[k].outSms, OutBase(ss[..k]))
    ensures OutBase(ss[..k + 1]) == OutBase(ss[..k]) + OutSize(ss[k])
    ensures InBase(ss[..k + 1]) == InBase(ss[..k]) + InSize(ss[k])
  {
    assert ss[..k + 1][..k] == ss[..k];
  }

  /** What `resolve` makes of these slaves when nothing is wrong with them. */
  ghost predicate IsResolved(ss: seq<SlaveIn>, cfg: Resolved) {
    && cfg.pins == AllPins(ss, OutBase(ss)) && cfg.fields == AllMotion(ss).fields
    && cfg.sampleBytes == AllMotion(ss).sampleOff
    && cfg.outBytes == OutBase(ss) && cfg.image == OutBase(ss) + InBase(ss)
    && cfg.outLogical == seq(|ss|, k requires 0 <= k < |ss| => OutBase(ss[..k]))
    && cfg.inLogical == seq(|ss|, k requires 0 <= k < |ss| => OutBase(ss) + InBase(ss[..k]))
    && cfg.lead == DefaultLead(ss, cfg.sampleBytes) && cfg.maxSamples == MaxSamples(cfg.lead, cfg.sampleBytes)
  }

  /** The slave loop. */
  method PlaceAll(ss: seq<SlaveIn>, esi: map<nat, nat>, outSizes: seq<nat>, inSizes: seq<nat>, totalOut: nat)
    returns (pins: seq<PinCfg>, m: Motion, outs: seq<nat>, ins: seq<nat>, image: nat, err: Option<Error>)
    requires |outSizes| == |ss| == |inSizes|
    requires forall k :: 0 <= k < |ss| ==> outSizes[k] == OutSize(ss[k]) && inSizes[k] == InSize(ss[k])
    ensures err.None? <==> forall k :: 0 <= k < |ss| ==> DeviceOk(ss[k], esi) && SlaveMotionOk(ss[k])
    ensures err.Some? ==> exists k :: StopsAt(ss, esi, k, err.value)
    ensures err.None? ==>
      && pins == AllPins(ss, totalOut) && m == AllMotion(ss) && image == totalOut + InBase(ss)
      && outs == seq(|ss|, k requires 0 <= k < |ss| => OutBase(ss[..k]))
      && ins == seq(|ss|, k requires 0 <= k < |ss| => totalOut + InBase(ss[..k]))
  {
    hide SlavePins, SlaveMotionOk, SmsMotion, OutSize, InSize;
    pins, m, outs, ins, err := [], Motion([], 0), [], [], None;
    var outCursor, inCursor := 0, totalOut;
    image := 0;
    for k := 0 to |ss|
      invariant outCursor == OutBase(ss[..k]) && inCursor == totalOut + InBase(ss[..k])
      invariant forall j :: 0 <= j < k ==> DeviceOk(ss[j], esi) && SlaveMotionOk(ss[j])
      invariant pins == AllPins(ss[..k], totalOut) && m == AllMotion(ss[..k])
      invariant outs == seq(k, j requires 0 <= j < k => OutBase(ss[..j]))
      invariant ins == seq(k, j requires 0 <= j < k => totalOut + InBase(ss[..j]))
    {
      AllSnoc(ss, k, totalOut);
      hide AllPins, AllMotion, OutBase, InBase;
      var s := ss[k];
      if s.pid !in esi {
        err := Some(NoDevice);
        assert StopsAt(ss, esi, k, NoDevice);
        return;
      }
      if esi[s.pid] < 4 {
        err := Some(FewSyncManagers);
        assert StopsAt(ss, esi, k, FewSyncManagers);
        return;
      }
      outs, ins := outs + [outCursor], ins + [inCursor];
      var ok;
      pins, m, ok := PlaceSlave(s, outCursor, inCursor, pins, m);
      if !ok {
        err := Some(UnalignedMotion);
        assert StopsAt(ss, esi, k, UnalignedMotion);
        return;
      }
      outCursor, inCursor := outCursor + outSizes[k], inCursor + inSizes[k];
    }
    assert ss[..|ss|] == ss;
    image := inCursor;
  }

  /** `resolve`; `esi` gives the number of sync managers a product declares. */
  method Resolve(ss: seq<SlaveIn>, esi: map<nat, nat>) returns (r: Result)
    ensures r.Ok? <==> Resolvable(ss, esi)
    ensures r.Err? ==>
      || (exists k :: StopsAt(ss, esi, k, r.error))
      || (r.error == DuplicatePin && (forall s <- ss :: ErrorOf(s, esi) == None) && !Unique(AllPins(ss, OutBase(ss))))
    ensures r.Ok? ==> IsResolved(ss, r.cfg)
  {
    hide AllPins, AllMotion, OutBase, InBase, SlaveMotionOk, Unique;
    var outSizes, inSizes, totalOut := FirstPass(ss);
    var pins, m, outs, ins, image, err := PlaceAll(ss, esi, outSizes, inSizes, totalOut);
    if err.Some? {
      return Err(err.value);
    }
    var unique := CheckUnique(pins);
    if !unique {
      return Err(DuplicatePin);
    }
    var deepest := FindLead(ss);
    var lead := 0;
    if m.sampleOff > 0 {
      lead := if deepest > 0 then deepest else 8;
    }
    return Ok(Resolved(pins, m.fields, outs, ins, totalOut, image, m.sampleOff, lead, MaxSamples(lead, m.sampleOff)));
  }

  /** The first pass: per-slave sizes and the total output size. */
  method FirstPass(ss: seq<SlaveIn>) returns (outs: seq<nat>, ins: seq<nat>, total: nat)
    ensures |outs| == |ss| == |ins| && total == OutBase(ss)
    ensures forall k :: 0 <= k < |ss| ==> outs[k] == OutSize(ss[k]) && ins[k] == InSize(ss[k])
  {
    outs, ins, total := [], [], 0;
    for k := 0 to |ss|
      invariant |outs| == k == |ins| && total == OutBase(ss[..k])
      invariant forall j :: 0 <= j < k ==> outs[j] == OutSize(ss[j]) && ins[j] == InSize(ss[j])
    {
      assert ss[..k + 1][..k] == ss[..k];
      var o := SmBytes(ss[k].outSms);
      var i := SmBytes(ss[k].inSms);
      outs, ins, total := outs + [o], ins + [i], total + o;
    }
    assert ss[..|ss|] == ss;
  }
}
