/** The CiA 402 drive sequencer (src/ethercat/cia402.rs). */
module Cia402 {
  import opened Bytes
  import opened Config
  import opened ProcessData

  const SWITCH_ON_DISABLED: nat := 0x40
  const READY_TO_SWITCH_ON: nat := 0x21
  const SWITCHED_ON: nat := 0x23
  const OPERATION_ENABLED: nat := 0x27

  const CW_SHUTDOWN: word := 0x0006
  const CW_SWITCH_ON: word := 0x0007
  const CW_ENABLE_OP: word := 0x000F
  const CW_QUICK_STOP: word := 0x0002
  const CW_FAULT_RESET: word := 0x0080
  const CW_DISABLE_VOLTAGE: word := 0x0000

  datatype DriveCommand = DriveCommand(enable: bool, faultReset: bool, quickStop: bool)

  /** Statusword bit 3. */
  predicate HasFault(sw: word) { (sw / 8) % 2 == 1 }

  /** `sw & 0x006F`. */
  function StateBits(sw: word): nat { sw % 16 + 32 * ((sw / 32) % 4) }

  /** The controlword that moves a drive reporting `sw` toward the command, and the new
      level of the fault-reset bit. */
  function NextControlword(sw: word, cmd: DriveCommand, frHigh: bool): (word, bool) {
    var state := StateBits(sw);
    if HasFault(sw) then
      if cmd.faultReset then
        (if !frHigh then CW_FAULT_RESET else CW_DISABLE_VOLTAGE, !frHigh)
      else (CW_DISABLE_VOLTAGE, false)
    else if cmd.quickStop && state == OPERATION_ENABLED then (CW_QUICK_STOP, false)
    else if state == SWITCH_ON_DISABLED then (CW_SHUTDOWN, false)
    else if state == READY_TO_SWITCH_ON then
      (if cmd.enable && !cmd.quickStop then CW_SWITCH_ON else CW_SHUTDOWN, false)
    else if state == SWITCHED_ON || state == OPERATION_ENABLED then
      (if cmd.enable && !cmd.quickStop then CW_ENABLE_OP else CW_SWITCH_ON, false)
    else (CW_SHUTDOWN, false)
  }

  /** One discovered drive. */
  datatype Binding = Binding(cw: PinCfg, sw: PinCfg)

  function Status(image: seq<byte>, d: Binding): word { Read(image, d.sw) % 0x1_0000 }

  /** The word written to drive `d`, and the level of its reset bit afterwards. */
  function Command(image: seq<byte>, d: Binding, cmd: DriveCommand, frHigh: bool): (word, bool) {
    NextControlword(Status(image, d), cmd, frHigh)
  }

  function StepOne(image: seq<byte>, d: Binding, cmd: DriveCommand, frHigh: bool): (r: seq<byte>)
    ensures |r| == |image|
  {
    Write(image, d.cw, Command(image, d, cmd, frHigh).0)
  }

  /** The image after the drives have been walked in order. */
  function StepImage(image: seq<byte>, ds: seq<Binding>, cmd: DriveCommand, fr: seq<bool>): (r: seq<byte>)
    requires |fr| == |ds|
    ensures |r| == |image|
    decreases |ds|
  {
    if ds == [] then image else StepImage(StepOne(image, ds[0], cmd, fr[0]), ds[1..], cmd, fr[1..])
  }

  /** The reset-bit levels after the walk. */
  function StepLevels(image: seq<byte>, ds: seq<Binding>, cmd: DriveCommand, fr: seq<bool>): (r: seq<bool>)
    requires |fr| == |ds|
    ensures |r| == |ds|
    decreases |ds|
  {
    if ds == [] then []
    else [Command(image, ds[0], cmd, fr[0]).1] + StepLevels(StepOne(image, ds[0], cmd, fr[0]), ds[1..], cmd, fr[1..])
  }

  // ---- Discovery ----

  const CW_SUFFIX: string := "-controlword"
  const SW_SUFFIX: string := "-statusword"

  function StripSuffix(s: string, suffix: string): Option<string> {
    if |suffix| <= |s| && s[|s| - |suffix|..] == suffix then Some(s[..|s| - |suffix|]) else None
  }

  predicate IsStatusFor(p: PinCfg, prefix: string) {
    p.dir == Input && StripSuffix(p.name, SW_SUFFIX) == Some(prefix)
  }

  /** The first statusword input sharing the prefix. */
  function FindStatus(pins: seq<PinCfg>, prefix: string): Option<PinCfg> {
    if pins == [] then None
    else if IsStatusFor(pins[0], prefix) then Some(pins[0])
    else FindStatus(pins[1..], prefix)
  }

  /** The drive that output pin `p` controls, if it is a controlword with a statusword. */
  function DriveOf(p: PinCfg, pins: seq<PinCfg>): Option<Binding> {
    if p.dir != Output then None
    else match StripSuffix(p.name, CW_SUFFIX)
      case None => None
      case Some(prefix) =>
        match FindStatus(pins, prefix)
        case None => None
        case Some(sw) => Some(Binding(p, sw))
  }

  /** All drives of `todo`, in order, until the table of 32 is full. */
  function DrivesFrom(found: seq<Binding>, todo: seq<PinCfg>, pins: seq<PinCfg>): seq<Binding>
    decreases |todo|
  {
    if todo == [] then found
    else
      match DriveOf(todo[0], pins)
      case Some(d) => DrivesFrom(if |found| < MAX_SLAVES then found + [d] else found, todo[1..], pins)
      case None => DrivesFrom(found, todo[1..], pins)
  }

  function Discover(pins: seq<PinCfg>): seq<Binding> { DrivesFrom([], pins, pins) }

  // ---- What discovery finds ----

  /** `d` pairs pin `i` with its statusword: an output controlword, and the first input
      statusword of the same prefix. */
  ghost predicate Paired(pins: seq<PinCfg>, i: nat, d: Binding) {
    && i < |pins| && d.cw == pins[i] && d.cw.dir == Output
    && exists prefix, j: nat ::
      && d.cw.name == prefix + CW_SUFFIX && j < |pins| && d.sw == pins[j] && NamesStatus(pins[j], prefix)
      && forall m :: 0 <= m < j ==> !NamesStatus(pins[m], prefix)
  }

  predicate NamesStatus(p: PinCfg, prefix: string) { p.dir == Input && p.name == prefix + SW_SUFFIX }

  lemma StripIff(s: string, suffix: string, prefix: string)
    ensures StripSuffix(s, suffix) == Some(prefix) <==> s == prefix + suffix
  {
    if StripSuffix(s, suffix) == Some(prefix) {
      assert s == s[..|s| - |suffix|] + s[|s| - |suffix|..];
    }
  }

  lemma {:induction false} FindStatusIs(pins: seq<PinCfg>, prefix: string) returns (j: nat)
    ensures FindStatus(pins, prefix).Some? ==>
      j < |pins| && FindStatus(pins, prefix) == Some(pins[j]) && NamesStatus(pins[j], prefix)
    ensures FindStatus(pins, prefix).None? ==> j == |pins|
    ensures forall m :: 0 <= m < j ==> !NamesStatus(pins[m], prefix)
  {
    if pins == [] {
      j := 0;
    } else {
      StripIff(pins[0].name, SW_SUFFIX, prefix);
      if IsStatusFor(pins[0], prefix) {
        j := 0;
      } else {
        j := FindStatusIs(pins[1..], prefix);
        j := j + 1;
      }
    }
  }

  lemma DriveOfIff(pins: seq<PinCfg>, i: nat, d: Binding)
    requires i < |pins|
    ensures DriveOf(pins[i], pins) == Some(d) <==> Paired(pins, i, d)
  {
    hide StripSuffix, FindStatus;
    var p := pins[i];
    forall prefix
      ensures StripSuffix(p.name, CW_SUFFIX) == Some(prefix) <==> p.name == prefix + CW_SUFFIX
    {
      StripIff(p.name, CW_SUFFIX, prefix);
    }
    if StripSuffix(p.name, CW_SUFFIX).Some? {
      var j := FindStatusIs(pins, StripSuffix(p.name, CW_SUFFIX).value);
    }
    if Paired(pins, i, d) {
      var prefix, j: nat :|
        && d.cw.name == prefix + CW_SUFFIX && j < |pins| && d.sw == pins[j] && NamesStatus(pins[j], prefix)
        && forall m :: 0 <= m < j ==> !NamesStatus(pins[m], prefix);
      var k := FindStatusIs(pins, prefix);
      assert StripSuffix(p.name, CW_SUFFIX) == Some(prefix);
    }
  }

  /** The drives among the first `n` pins: `ix` gives where each stands, in ascending order,
      and only once the table of 32 is full is one left out. */
  ghost predicate Found(pins: seq<PinCfg>, n: nat, ds: seq<Binding>, ix: seq<nat>) {
    && n <= |pins| && |ix| == |ds| <= MAX_SLAVES
    && (forall k :: 0 <= k < |ix| ==> ix[k] < n && Paired(pins, ix[k], ds[k]))
    && (forall k, m :: 0 <= k < m < |ix| ==> ix[k] < ix[m])
    && (forall i, d {:trigger Paired(pins, i, d)} :: 0 <= i < n && Paired(pins, i, d) ==>
      i in ix || (|ds| == MAX_SLAVES && forall k :: 0 <= k < |ix| ==> ix[k] < i))
  }

  lemma {:induction false} DrivesFromIs(pins: seq<PinCfg>, n: nat, ds: seq<Binding>, ix: seq<nat>)
    returns (ix': seq<nat>)
    requires Found(pins, n, ds, ix)
    ensures Found(pins, |pins|, DrivesFrom(ds, pins[n..], pins), ix')
    decreases |pins| - n
  {
    if n == |pins| {
      ix' := ix;
    } else {
      hide DriveOf, Paired;
      assert pins[n..][0] == pins[n] && pins[n..][1..] == pins[n + 1..];
      forall d
        ensures DriveOf(pins[n], pins) == Some(d) <==> Paired(pins, n, d)
      {
        DriveOfIff(pins, n, d);
      }
      match DriveOf(pins[n], pins)
      case Some(d) =>
        if |ds| < MAX_SLAVES {
          FoundOne(pins, n, ds, ix, d);
          ix' := DrivesFromIs(pins, n + 1, ds + [d], ix + [n]);
        } else {
          ix' := DrivesFromIs(pins, n + 1, ds, ix);
        }
      case None =>
        ix' := DrivesFromIs(pins, n + 1, ds, ix);
    }
  }

  lemma FoundOne(pins: seq<PinCfg>, n: nat, ds: seq<Binding>, ix: seq<nat>, d: Binding)
    requires Found(pins, n, ds, ix) && n < |pins| && Paired(pins, n, d) && |ds| < MAX_SLAVES
    ensures Found(pins, n + 1, ds + [d], ix + [n])
  {
    hide Paired;
    assert n in ix + [n];
    forall i, e | 0 <= i < n + 1 && Paired(pins, i, e)
      ensures i in ix + [n]
    {
      assert i < n ==> i in ix;
    }
  }

  /** Discovery finds every output controlword that has a statusword, in pin order, the first
      32 of them, each with the first statusword of its prefix. */
  lemma DiscoverIs(pins: seq<PinCfg>) returns (ix: seq<nat>)
    ensures Found(pins, |pins|, Discover(pins), ix)
  {
    hide DrivesFrom;
    assert pins[0..] == pins;
    ix := DrivesFromIs(pins, 0, [], []);
  }

  method DiscoverDrives(pins: seq<PinCfg>) returns (drives: seq<Binding>)
    ensures drives == Discover(pins) && exists ix :: Found(pins, |pins|, drives, ix)
  {
    ghost var ix := DiscoverIs(pins);
    drives := [];
    for i := 0 to |pins|
      invariant DrivesFrom(drives, pins[i..], pins) == Discover(pins)
    {
      var cw := pins[i];
      assert pins[i..][0] == cw && pins[i..][1..] == pins[i + 1..];
      if cw.dir == Output {
        var prefix := StripSuffix(cw.name, CW_SUFFIX);
        if prefix.Some? {
          var j := 0;
          while j < |pins| && !IsStatusFor(pins[j], prefix.value)
            invariant 0 <= j <= |pins|
            invariant FindStatus(pins, prefix.value) == FindStatus(pins[j..], prefix.value)
          {
            assert pins[j..][1..] == pins[j + 1..];
            j := j + 1;
          }
          if j < |pins| && |drives| < MAX_SLAVES {
            drives := drives + [Binding(cw, pins[j])];
          }
        }
      }
    }
  }

  class Sequencer {
    const drives: seq<Binding>
    /** Level of controlword bit 7 last written to each drive. */
    var frHigh: seq<bool>

    ghost predicate Valid()
      reads this
    {
      |frHigh| == |drives|
    }

    constructor (pins: seq<PinCfg>)
      ensures Valid() && drives == Discover(pins)
      ensures forall i :: 0 <= i < |frHigh| ==> !frHigh[i]
    {
      var ds := DiscoverDrives(pins);
      drives := ds;
      frHigh := seq(|ds|, _ => false);
    }

    method AnyFault(image: array<byte>) returns (fault: bool)
      requires forall d <- drives :: d.sw.bitLen <= 64
      ensures fault <==> exists i :: 0 <= i < |drives| && HasFault(Status(image[..], drives[i]))
    {
      for i := 0 to |drives|
        invariant forall j :: 0 <= j < i ==> !HasFault(Status(image[..], drives[j]))
      {
        var v := ReadValue(image, drives[i].sw);
        if HasFault(v % 0x1_0000) {
          return true;
        }
      }
      return false;
    }

    method Step(image: array<byte>, cmd: DriveCommand)
      requires Valid() && forall d <- drives :: d.sw.bitLen <= 64
      modifies this`frHigh, image
      ensures Valid()
      ensures image[..] == StepImage(old(image[..]), drives, cmd, old(frHigh))
      ensures frHigh == StepLevels(old(image[..]), drives, cmd, old(frHigh))
    {
      hide StepImage, StepLevels, StepOne, Command;
      ghost var was, fr := image[..], frHigh;
      WalkStart(was, drives, cmd, fr);
      for i := 0 to |drives|
        invariant |frHigh| == |drives| && frHigh[i..] == fr[i..]
        invariant StepImage(image[..], drives[i..], cmd, fr[i..]) == StepImage(was, drives, cmd, fr)
        invariant frHigh[..i] + StepLevels(image[..], drives[i..], cmd, fr[i..]) == StepLevels(was, drives, cmd, fr)
      {
        Unroll(image[..], drives, cmd, fr, i);
        SameTail(frHigh, fr, i);
        var level := StepDrive(image, drives[i], cmd, frHigh[i]);
        PutAt(frHigh, i, level);
        frHigh := frHigh[i := level];
      }
      WalkEnd(image[..], drives, cmd, fr);
    }

    method StepDrive(image: array<byte>, d: Binding, cmd: DriveCommand, frHigh: bool) returns (level: bool)
      requires d.sw.bitLen <= 64
      modifies image
      ensures image[..] == StepOne(old(image[..]), d, cmd, frHigh)
      ensures level == Command(old(image[..]), d, cmd, frHigh).1
    {
      var v := ReadValue(image, d.sw);
      var next := NextControlword(v % 0x1_0000, cmd, frHigh);
      WriteValue(image, d.cw, next.0);
      level := next.1;
    }
  }

  lemma SameTail(a: seq<bool>, b: seq<bool>, i: nat)
    requires i < |a| == |b| && a[i..] == b[i..]
    ensures a[i] == b[i] && a[i + 1..] == b[i + 1..]
  {
    assert a[i] == a[i..][0] && b[i] == b[i..][0] && a[i..][1..] == a[i + 1..] && b[i..][1..] == b[i + 1..];
  }

  lemma PutAt(a: seq<bool>, i: nat, v: bool)
    requires i < |a|
    ensures a[i := v][..i + 1] == a[..i] + [v] && a[i := v][i + 1..] == a[i + 1..]
  {
  }

  lemma WalkStart(image: seq<byte>, ds: seq<Binding>, cmd: DriveCommand, fr: seq<bool>)
    requires |ds| == |fr|
    ensures ds[0..] == ds && fr[0..] == fr
  {
  }

  lemma WalkEnd(image: seq<byte>, ds: seq<Binding>, cmd: DriveCommand, fr: seq<bool>)
    requires |ds| == |fr|
    ensures StepImage(image, ds[|ds|..], cmd, fr[|ds|..]) == image
    ensures StepLevels(image, ds[|ds|..], cmd, fr[|ds|..]) == []
  {
  }

  lemma Unroll(image: seq<byte>, ds: seq<Binding>, cmd: DriveCommand, fr: seq<bool>, i: nat)
    requires i < |ds| == |fr|
    ensures StepImage(image, ds[i..], cmd, fr[i..])
         == StepImage(StepOne(image, ds[i], cmd, fr[i]), ds[i + 1..], cmd, fr[i + 1..])
    ensures StepLevels(image, ds[i..], cmd, fr[i..])
         == [Command(image, ds[i], cmd, fr[i]).1] + StepLevels(StepOne(image, ds[i], cmd, fr[i]), ds[i + 1..], cmd,
           fr[i + 1..])
  {
    assert ds[i..][1..] == ds[i + 1..] && fr[i..][1..] == fr[i + 1..];
  }

  // ---- What the walk does to the image ----

  /** Every pin a drive uses lies in an image of `n` bytes; controlwords and statuswords
      are whole fields, and no controlword shares a bit with another drive pin. */
  ghost predicate DrivesOk(ds: seq<Binding>, n: nat) {
    && (forall d <- ds :: Placed(d.cw, n) && d.cw.halType != Bit && Placed(d.sw, n) && d.sw.halType != Bit)
    && (forall d, e :: d in ds && e in ds ==> Apart(d.cw, e.sw))
    && (forall i, j :: 0 <= i < j < |ds| ==> Apart(ds[i].cw, ds[j].cw))
  }

  /** The controlword a drive has been given, as it stands in the image. */
  function Commanded(image: seq<byte>, d: Binding): nat { Raw(image, d.cw) }

  lemma StepOneEffect(image: seq<byte>, ds: seq<Binding>, cmd: DriveCommand, frHigh: bool, i: nat)
    requires DrivesOk(ds, |image|) && i < |ds|
    ensures var image1 := StepOne(image, ds[i], cmd, frHigh);
      && (forall j {:trigger ds[j]} :: 0 <= j < |ds| ==> Status(image1, ds[j]) == Status(image, ds[j]))
      && Commanded(image1, ds[i]) == Command(image, ds[i], cmd, frHigh).0 % Pow2(ds[i].cw.bitLen)
      && (forall j {:trigger ds[j]} :: 0 <= j < |ds| && j != i ==> Commanded(image1, ds[j]) == Commanded(image, ds[j]))
  {
    var w := Command(image, ds[i], cmd, frHigh).0;
    RawAfterWrite(image, ds[i].cw, w);
    forall j | 0 <= j < |ds|
      ensures Read(Write(image, ds[i].cw, w), ds[j].sw) == Read(image, ds[j].sw)
    {
      WriteKeepsOthers(image, ds[i].cw, ds[j].sw, w);
    }
    forall j | 0 <= j < |ds| && j != i
      ensures Raw(Write(image, ds[i].cw, w), ds[j].cw) == Raw(image, ds[j].cw)
    {
      WriteKeepsRaw(image, ds[i].cw, ds[j].cw, w);
    }
  }

  lemma DrivesOkTail(ds: seq<Binding>, n: nat)
    requires DrivesOk(ds, n) && ds != []
    ensures DrivesOk(ds[1..], n)
  {
  }

  /** After the walk each drive carries the word its own incoming status calls for,
      whatever was in the controlword field before. */
  lemma {:induction false} StepCommands(image: seq<byte>, ds: seq<Binding>, cmd: DriveCommand, fr: seq<bool>, i: nat)
    requires DrivesOk(ds, |image|) && |fr| == |ds| && i < |ds|
    ensures Commanded(StepImage(image, ds, cmd, fr), ds[i])
      == Command(image, ds[i], cmd, fr[i]).0 % Pow2(ds[i].cw.bitLen)
    ensures StepLevels(image, ds, cmd, fr)[i] == Command(image, ds[i], cmd, fr[i]).1
    decreases |ds|
  {
    hide DrivesOk, Commanded, StepOne;
    var image1 := StepOne(image, ds[0], cmd, fr[0]);
    StepOneEffect(image, ds, cmd, fr[0], 0);
    DrivesOkTail(ds, |image|);
    if i == 0 {
      StepKeepsCommanded(image1, ds, cmd, fr);
    } else {
      assert Status(image1, ds[i]) == Status(image, ds[i]);
      StepCommands(image1, ds[1..], cmd, fr[1..], i - 1);
    }
  }

  /** Walking the other drives leaves the first one's word alone. */
  lemma StepKeepsCommanded(image: seq<byte>, ds: seq<Binding>, cmd: DriveCommand, fr: seq<bool>)
    requires DrivesOk(ds, |image|) && |fr| == |ds| && ds != []
    ensures Commanded(StepImage(image, ds[1..], cmd, fr[1..]), ds[0]) == Commanded(image, ds[0])
  {
    WalkKeeps(image, ds, ds[1..], cmd, fr[1..]);
  }

  lemma {:induction false} WalkKeeps(image: seq<byte>, ds: seq<Binding>, rest: seq<Binding>, cmd: DriveCommand,
      fr: seq<bool>)
    requires |fr| == |rest| && ds != [] && Placed(ds[0].cw, |image|) && ds[0].cw.halType != Bit
    requires forall d <- rest :: Placed(d.cw, |image|) && d.cw.halType != Bit && Apart(ds[0].cw, d.cw)
    ensures Commanded(StepImage(image, rest, cmd, fr), ds[0]) == Commanded(image, ds[0])
    decreases |rest|
  {
    if rest == [] {
    } else {
      WriteKeepsRaw(image, rest[0].cw, ds[0].cw, Command(image, rest[0], cmd, fr[0]).0);
      WalkKeeps(StepOne(image, rest[0], cmd, fr[0]), ds, rest[1..], cmd, fr[1..]);
    }
  }

  // ---- What a drive reports ----

  /** The states of the IEC 61800-7-201 drive FSA the enable walk passes through. */
  datatype FsaState = SwitchOnDisabled | ReadyToSwitchOn | SwitchedOn | OperationEnabled

  /** How each shows in the statusword, by its bits: ready to switch on, switched on, operation
      enabled and fault in bits 0 to 3, quick stop (active low) in bit 5, switch-on disabled in
      bit 6; the others do not matter. */
  predicate Reports(s: FsaState, sw: word) {
    var b0, b1, b2, b3 := sw % 2 == 1, (sw / 2) % 2 == 1, (sw / 4) % 2 == 1, (sw / 8) % 2 == 1;
    var b5, b6 := (sw / 32) % 2 == 1, (sw / 64) % 2 == 1;
    match s
    case SwitchOnDisabled => !b0 && !b1 && !b2 && !b3 && b6
    case ReadyToSwitchOn => b0 && !b1 && !b2 && !b3 && b5 && !b6
    case SwitchedOn => b0 && b1 && !b2 && !b3 && b5 && !b6
    case OperationEnabled => b0 && b1 && b2 && !b3 && b5 && !b6
  }

  /** The source's mask keeps just those bits. */
  lemma ReportsIff(sw: word)
    ensures Reports(ReadyToSwitchOn, sw) <==> StateBits(sw) == READY_TO_SWITCH_ON
    ensures Reports(SwitchedOn, sw) <==> StateBits(sw) == SWITCHED_ON
    ensures Reports(OperationEnabled, sw) <==> StateBits(sw) == OPERATION_ENABLED
    ensures Reports(SwitchOnDisabled, sw) <==> StateBits(sw) == 0x40 || StateBits(sw) == 0x60
  {
    var lo, hi := sw % 16, (sw / 32) % 4;
    LowBits(sw, lo);
    HighBits(sw, hi);
    Nibble(lo);
    assert StateBits(sw) == lo + 32 * hi && hi == hi % 2 + 2 * (hi / 2);
  }

  lemma FaultIsKept(sw: word)
    ensures HasFault(sw) <==> StateBits(sw) % 16 >= 8
  {
    var lo, hi := sw % 16, (sw / 32) % 4;
    assert (sw / 8) % 2 == lo / 8 by {
      Quotient(sw, sw / 16, lo, 8, 2);
    }
    EuclidUnique(StateBits(sw), 16, 2 * hi, lo);
  }

  lemma LowBits(sw: nat, lo: nat)
    requires lo == sw % 16
    ensures sw % 2 == lo % 2 && (sw / 2) % 2 == (lo / 2) % 2 && (sw / 4) % 2 == (lo / 4) % 2 && (sw / 8) % 2 == lo / 8
  {
    var q := sw / 16;
    Quotient(sw, q, lo, 2, 8);
    Quotient(sw, q, lo, 4, 4);
    Quotient(sw, q, lo, 8, 2);
    assert sw % 2 == lo % 2;
  }

  lemma Quotient(sw: nat, q: nat, lo: nat, k: nat, m: nat)
    requires sw == 16 * q + lo && lo < 16 && ((k == 2 && m == 8) || (k == 4 && m == 4) || (k == 8 && m == 2))
    ensures (sw / k) % 2 == (lo / k) % 2
  {
    assert sw / k == m * q + lo / k;
  }

  lemma HighBits(sw: nat, hi: nat)
    requires hi == (sw / 32) % 4
    ensures (sw / 32) % 2 == hi % 2 && (sw / 64) % 2 == hi / 2
  {
    var q := (sw / 32) / 4;
    assert sw / 32 == 4 * q + hi && sw / 64 == (sw / 32) / 2;
  }

  lemma Nibble(n: nat)
    requires n < 16
    ensures n == n % 2 + 2 * ((n / 2) % 2) + 4 * ((n / 4) % 2) + 8 * (n / 8)
  {
  }

  // ---- Safe state ----

  /** Under a quick-stop no status whatever yields Enable Operation, and an enabled drive
      without a fault is told to stop. */
  lemma QuickStopCommands(sw: word, cmd: DriveCommand, frHigh: bool)
    requires cmd.quickStop
    ensures NextControlword(sw, cmd, frHigh).0 != 0x000F
    ensures Reports(OperationEnabled, sw) ==> NextControlword(sw, cmd, frHigh).0 == 0x0002
  {
    ReportsIff(sw);
    FaultIsKept(sw);
    hide Reports, StateBits;
  }

  /** Enable Operation is issued only on request, to a drive already switched on. */
  lemma EnableOnlyWhenAsked(sw: word, cmd: DriveCommand, frHigh: bool)
    ensures NextControlword(sw, cmd, frHigh).0 == 0x000F
      <==> cmd.enable && !cmd.quickStop && (Reports(SwitchedOn, sw) || Reports(OperationEnabled, sw))
  {
    ReportsIff(sw);
    FaultIsKept(sw);
    hide Reports, StateBits;
  }

  lemma ResetOnlyWhenAsked(sw: word, cmd: DriveCommand, frHigh: bool)
    ensures NextControlword(sw, cmd, frHigh).0 == 0x0080 <==> (sw / 8) % 2 == 1 && cmd.faultReset && !frHigh
  {
  }

  // ---- Fault reset over runs ----

  /** Bit 7 of a controlword. */
  predicate ResetBit(cw: word) { (cw / 128) % 2 == 1 }

  /** The words one drive receives over a run of statuses and commands. */
  function Words(run: seq<(word, DriveCommand)>, frHigh: bool): (ws: seq<word>)
    ensures |ws| == |run|
  {
    if run == [] then []
    else
      var (cw, fr) := NextControlword(run[0].0, run[0].1, frHigh);
      [cw] + Words(run[1..], fr)
  }

  function LevelAfter(run: seq<(word, DriveCommand)>, frHigh: bool): bool {
    if run == [] then frHigh else LevelAfter(run[1..], NextControlword(run[0].0, run[0].1, frHigh).1)
  }

  lemma ResetBitTracked(sw: word, cmd: DriveCommand, frHigh: bool)
    ensures var (cw, fr) := NextControlword(sw, cmd, frHigh); fr == ResetBit(cw)
    ensures frHigh ==> !ResetBit(NextControlword(sw, cmd, frHigh).0)
  {
  }

  /** The remembered level is bit 7 of the last word written, over any run. */
  lemma {:induction false} LevelIsLastBit(run: seq<(word, DriveCommand)>, frHigh: bool)
    requires run != []
    ensures LevelAfter(run, frHigh) == ResetBit(Words(run, frHigh)[|run| - 1])
  {
    var fr := NextControlword(run[0].0, run[0].1, frHigh).1;
    ResetBitTracked(run[0].0, run[0].1, frHigh);
    if |run| > 1 {
      LevelIsLastBit(run[1..], fr);
    }
  }

  /** Every fault-reset word is a true rising edge: the word before it had bit 7 clear. */
  lemma {:induction false} ResetIsAnEdge(run: seq<(word, DriveCommand)>, frHigh: bool, i: nat)
    requires i < |run| && ResetBit(Words(run, frHigh)[i])
    ensures if i == 0 then !frHigh else !ResetBit(Words(run, frHigh)[i - 1])
  {
    var fr := NextControlword(run[0].0, run[0].1, frHigh).1;
    ResetBitTracked(run[0].0, run[0].1, frHigh);
    if i > 0 {
      ResetIsAnEdge(run[1..], fr, i - 1);
    }
  }

  /** While a fault persists and the reset is held, the edges come every second tick. */
  lemma {:induction false} HeldResetPulses(run: seq<(word, DriveCommand)>, frHigh: bool, i: nat)
    requires forall x <- run :: HasFault(x.0) && x.1.faultReset
    requires i < |run|
    ensures Words(run, frHigh)[i] == if (i % 2 == 0) != frHigh then CW_FAULT_RESET else CW_DISABLE_VOLTAGE
  {
    if i > 0 {
      HeldResetPulses(run[1..], !frHigh, i - 1);
      assert Words(run, frHigh)[i] == Words(run[1..], !frHigh)[i - 1];
    }
  }

  // ---- The enable walk against a standard drive ----

  function Rank(s: FsaState): nat {
    match s
    case SwitchOnDisabled => 0
    case ReadyToSwitchOn => 1
    case SwitchedOn => 2
    case OperationEnabled => 3
  }

  function CwBit(cw: word, k: nat): bool
    requires k < 4
  {
    (cw / [1, 2, 4, 8][k]) % 2 == 1
  }

  /** The FSA's reaction to a controlword: bits 0 switch on, 1 enable voltage, 2 quick
      stop (active low), 3 enable operation. */
  function Transition(s: FsaState, cw: word): FsaState {
    var b0, b1, b2, b3 := CwBit(cw, 0), CwBit(cw, 1), CwBit(cw, 2), CwBit(cw, 3);
    if !b1 || !b2 then SwitchOnDisabled
    else match s
      case SwitchOnDisabled => if !b0 then ReadyToSwitchOn else SwitchOnDisabled
      case ReadyToSwitchOn => if b0 then SwitchedOn else ReadyToSwitchOn
      case SwitchedOn => if !b0 then ReadyToSwitchOn else if b3 then OperationEnabled else SwitchedOn
      case OperationEnabled => if !b0 then ReadyToSwitchOn else if b3 then OperationEnabled else SwitchedOn
  }

  /** A run of a drive that reports its state (with any other status bits) and, each tick,
      either obeys the word it was sent or has not yet reacted. */
  ghost predicate EnableRun(states: seq<FsaState>, sws: seq<word>, fr: seq<bool>) {
    && |states| == |sws| + 1 == |fr|
    && states[0] == SwitchOnDisabled
    && forall i :: 0 <= i < |sws| ==>
      && Reports(states[i], sws[i])
      && var (cw, level) := NextControlword(sws[i], DriveCommand(true, false, false), fr[i]);
         fr[i + 1] == level && states[i + 1] in {states[i], Transition(states[i], cw)}
  }

  /** Transitions the drive has actually taken in the first `n` ticks. */
  function Taken(states: seq<FsaState>, n: nat): nat
    requires n < |states|
  {
    if n == 0 then 0 else Taken(states, n - 1) + if states[n] != states[n - 1] then 1 else 0
  }

  /** With enable held, the drive climbs one state per transition, skips none, never falls
      back, and is in Operation Enabled exactly from the third transition on. */
  lemma {:induction false} EnableWalk(states: seq<FsaState>, sws: seq<word>, fr: seq<bool>, n: nat)
    requires EnableRun(states, sws, fr) && n < |states|
    ensures Rank(states[n]) == Taken(states, n) <= 3
    ensures states[n] == OperationEnabled <==> Taken(states, n) == 3
    ensures n > 0 ==> Rank(states[n - 1]) <= Rank(states[n]) <= Rank(states[n - 1]) + 1
  {
    if n > 0 {
      EnableWalk(states, sws, fr, n - 1);
      var i := n - 1;
      var cw := NextControlword(sws[i], DriveCommand(true, false, false), fr[i]).0;
      WalkStep(states[i], sws[i], fr[i]);
    }
  }

  lemma WalkStep(s: FsaState, sw: word, frHigh: bool)
    requires Reports(s, sw)
    ensures var cw := NextControlword(sw, DriveCommand(true, false, false), frHigh).0;
      && (s == OperationEnabled ==> Transition(s, cw) == s)
      && (s != OperationEnabled ==> Rank(Transition(s, cw)) == Rank(s) + 1)
  {
    WordFor(s, sw, frHigh);
    hide Reports, NextControlword, Transition;
    Climbs();
  }

  /** Shutdown, switch on, enable operation: each takes the drive one state up. */
  lemma Climbs()
    ensures Transition(SwitchOnDisabled, 0x0006) == ReadyToSwitchOn && Transition(ReadyToSwitchOn, 0x0007) == SwitchedOn
    ensures Transition(SwitchedOn, 0x000F) == OperationEnabled == Transition(OperationEnabled, 0x000F)
  {
  }

  /** The word each state calls for, with enable held. */
  lemma WordFor(s: FsaState, sw: word, frHigh: bool)
    requires Reports(s, sw)
    ensures NextControlword(sw, DriveCommand(true, false, false), frHigh).0
      == match s case SwitchOnDisabled => 0x0006 case ReadyToSwitchOn => 0x0007 case _ => 0x000F
  {
    ReportsIff(sw);
    NoFaultReported(s, sw);
    hide Reports, StateBits, HasFault;
  }

  lemma NoFaultReported(s: FsaState, sw: word)
    requires Reports(s, sw)
    ensures !HasFault(sw)
  {
  }
}
