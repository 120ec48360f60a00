/** The motion stream end to end: what the Pi streams (linuxcnc/teensy_ecat_bridge.c:139-181)
    is what the firmware's ring takes in, hands out on the tagged cycle and lays into the
    drives' image (src/hal/host_bridge.rs:186-236). */
module MotionLink {
  import opened Bytes
  import opened Config
  import opened MotionBuffer
  import opened PiMotion
  import opened ProcessData
  import HB = HostBridge
  import Pi = PiBridge
  import Runs = MotionRuns

  // ---- From the frame into the ring ----

  /** The ring after `n` samples with consecutive tags. */
  function PushTagged(r: Ring, first: dword, n: nat, payload: seq<byte>): Ring {
    if n == 0 then r else Push(PushTagged(r, first, n - 1, payload), Sample(Tag(first, n - 1), payload))
  }

  lemma {:induction false} SampleIn(first: dword, n: nat, payload: seq<byte>, j: nat)
    requires j < n
    ensures var stride := 4 + |payload|;
      && Times(j, stride) + stride <= Times(n, stride)
      && Samples(first, n, payload)[Times(j, stride)..Times(j, stride) + stride] == Le32(Tag(first, j)) + payload
  {
    hide Le32, Tag;
    var stride := 4 + |payload|;
    HB.BlockFits(j, n, stride);
    if j < n - 1 {
      SampleIn(first, n - 1, payload, j);
      HB.BlockFits(j, n - 1, stride);
    }
  }

  /** The bytes of slot `j` inside the frame. */
  lemma SlotBytes(l: HB.Layout, head: seq<byte>, s: Sender, lead: int, vals: seq<dword>, crc: seq<byte>, j: nat)
    requires |l.fields| == |vals| && StreamSized(l) && l.fields != [] && |head| == l.StreamOff() && |crc| == 2
    requires j < Want(s, lead, l.maxSamples)
    ensures var f, base := head + Stream(l, s, lead, vals) + crc, l.StreamOff() + HB.STREAM_HDR + Times(j, l.Stride());
      && |f| == l.MosiLen() && base + l.Stride() <= |f| && f[l.StreamOff()] == Want(s, lead, l.maxSamples)
      && f[base..base + l.Stride()] == Le32(Tag(Resync(s.nextTag, s.cycle), j)) + Setpoint(l, vals)
  {
    hide Want, Resync, Setpoint, Le32, Tag, Samples, Times;
    var n, first, p := Want(s, lead, l.maxSamples), Resync(s.nextTag, s.cycle), Setpoint(l, vals);
    SampleIn(first, n, p, j);
    TimesLeft(n, l.maxSamples, l.Stride());
    InBlock(head, n, Samples(first, n, p), Zeros(Times(l.maxSamples - n, l.Stride())), crc, Times(j, l.Stride()),
      l.Stride());
  }

  lemma InBlock(head: seq<byte>, n: byte, s: seq<byte>, z: seq<byte>, crc: seq<byte>, at: nat, len: nat)
    requires at + len <= |s|
    ensures var f, base := head + ([n] + s + z) + crc, |head| + 1 + at;
      f[|head|] == n && f[base..base + len] == s[at..at + len]
  {
  }

  /** The firmware reads back every sample of the batch, and no other. */
  lemma BatchRead(l: HB.Layout, f: seq<byte>, head: seq<byte>, s: Sender, lead: int, vals: seq<dword>, crc: seq<byte>)
    requires |l.fields| == |vals| && StreamSized(l) && l.fields != [] && |head| == l.StreamOff() && |crc| == 2
    requires f == head + Stream(l, s, lead, vals) + crc
    ensures |f| == l.MosiLen() && HB.SampleCount(l, f) == Want(s, lead, l.maxSamples)
    ensures forall j :: 0 <= j < Want(s, lead, l.maxSamples) ==>
      HB.SampleAt(l, f, j) == Sample(Tag(Resync(s.nextTag, s.cycle), j), FitTo(Setpoint(l, vals), l.SampleLen()))
  {
    hide Want, Resync, Setpoint, Stream, Le32, Tag, FromLe32, FitTo;
    SlotBytes(l, head, s, lead, vals, crc, 0);
    forall j | 0 <= j < Want(s, lead, l.maxSamples)
      ensures HB.SampleAt(l, f, j) == Sample(Tag(Resync(s.nextTag, s.cycle), j),
        FitTo(Setpoint(l, vals), l.SampleLen()))
    {
      SlotBytes(l, head, s, lead, vals, crc, j);
      SlotRead(l, f, j, Tag(Resync(s.nextTag, s.cycle), j), Setpoint(l, vals));
    }
  }

  lemma SlotRead(l: HB.Layout, f: seq<byte>, j: nat, tag: dword, payload: seq<byte>)
    requires |f| >= l.MosiLen() && j < l.maxSamples && |payload| == l.sampleBytes
    requires var base := l.StreamOff() + HB.STREAM_HDR + Times(j, l.Stride());
      base + l.Stride() <= |f| && f[base..base + l.Stride()] == Le32(tag) + payload
    ensures HB.SampleAt(l, f, j) == Sample(tag, FitTo(payload, l.SampleLen()))
  {
    hide Le32, FromLe32, FitTo;
    var base, slot := l.StreamOff() + HB.STREAM_HDR + Times(j, l.Stride()), Le32(tag) + payload;
    assert f[base..base + 4] == f[base..base + l.Stride()][..4] == slot[..4] == Le32(tag);
    assert f[base + 4..base + l.Stride()] == f[base..base + l.Stride()][4..] == slot[4..] == payload;
    Le32RoundTrip(tag);
  }

  lemma {:induction false} PushesAre(l: HB.Layout, r: Ring, f: seq<byte>, first: dword, payload: seq<byte>, i: nat,
      n: nat)
    requires |f| >= l.MosiLen() && i <= n <= l.maxSamples
    requires forall j :: i <= j < n ==> HB.SampleAt(l, f, j) == Sample(Tag(first, j), payload)
    ensures HB.PushSamples(l, PushTagged(r, first, i, payload), f, i, n) == PushTagged(r, first, n, payload)
    decreases n - i
  {
    hide HB.SampleAt, Push, Tag;
    if i < n {
      PushesAre(l, r, f, first, payload, i + 1, n);
      assert PushTagged(r, first, i + 1, payload) == Push(PushTagged(r, first, i, payload), HB.SampleAt(l, f, i));
    }
  }

  /** The firmware's ring takes in exactly the batch the Pi streamed, in order. */
  lemma StreamTaken(l: HB.Layout, h: HB.Host, pins: seq<PinCfg>, values: seq<int>, c: Pi.Command, s: Sender, lead: int,
      vals: seq<dword>)
    requires |values| == |pins| && Pi.TableOk(pins, l.outBytes) && |l.fields| == |vals|
    requires StreamSized(l) && l.fields != [] && l.Streaming()
    ensures var f := Pi.MosiFrame(l, Pi.AllFramed(pins, l.outBytes), values, c, Stream(l, s, lead, vals));
      HB.Ingest(l, h, f).motion
        == PushTagged(h.motion, Resync(s.nextTag, s.cycle), Want(s, lead, l.maxSamples),
          FitTo(Setpoint(l, vals), l.SampleLen()))
  {
    hide Pi.SerializeAll, Pi.MosiHeader, HB.Crc16Word, HB.Accepts, Pi.OutputsOk, HB.SampleCount, HB.SampleAt,
      HB.Absorbed;
    hide Stream, Want, Resync, Setpoint, FitTo, Le16, Pi.AllFramed, HB.PushSamples;
    var framed, stream := Pi.AllFramed(pins, l.outBytes), Stream(l, s, lead, vals);
    var head := Pi.SerializeAll(Pi.MosiHeader(c) + Zeros(l.outBytes), framed, values);
    var f, first, n := Pi.MosiFrame(l, framed, values, c, stream), Resync(s.nextTag, s.cycle),
      Want(s, lead, l.maxSamples);
    Pi.FirmwareAccepts(l, h, pins, values, c, stream);
    BatchRead(l, f, head, s, lead, vals, Le16(HB.Crc16Word(head + stream)));
    NonePushed(h.motion, first, FitTo(Setpoint(l, vals), l.SampleLen()));
    PushesAre(l, h.motion, f, first, FitTo(Setpoint(l, vals), l.SampleLen()), 0, n);
  }

  lemma NonePushed(r: Ring, first: dword, payload: seq<byte>)
    ensures PushTagged(r, first, 0, payload) == r
  {
  }

  // ---- Tags over whole runs ----

  function Later(a: nat, b: nat): nat { if a > b then a else b }

  /** The resync compares 32-bit tags as numbers: for a stream within half the tag range of
      the clock it yields the later of the next tag and the next cycle if and only if the two
      have wrapped equally often. */
  lemma ResyncRightIff(due: nat, clock: nat)
    requires due < clock + HALF && clock < due + HALF
    ensures Resync(due % WRAP, clock % WRAP) == Later(due, clock + 1) % WRAP <==> due / WRAP == (clock + 1) / WRAP
  {
    var a, b, x, y := due / WRAP, (clock + 1) / WRAP, due % WRAP, (clock + 1) % WRAP;
    assert due == WRAP * a + x && clock + 1 == WRAP * b + y;
    assert (clock % WRAP + 1) % WRAP == y;
    assert -1 <= a - b <= 1;
  }

  /** Equal wraps suffice, however far the stream and the clock are apart. */
  lemma ResyncRight(due: nat, clock: nat)
    requires due / WRAP == (clock + 1) / WRAP
    ensures Resync(due % WRAP, clock % WRAP) == Later(due, clock + 1) % WRAP
  {
    var x, y := due % WRAP, (clock + 1) % WRAP;
    assert due == WRAP * (due / WRAP) + x && clock + 1 == WRAP * (due / WRAP) + y;
    assert (clock % WRAP + 1) % WRAP == y;
  }

  /** The ring's history, the next due cycle of the stream, and whether it has begun. */
  datatype Link = Link(run: Runs.Run, due: nat, primed: bool)

  /** A frame sent after hearing of cycle `heard` and ring depth `depth`, or one cyclic pop. */
  datatype Turn = Sent(heard: nat, depth: byte, payload: seq<byte>) | Popped

  function SenderOf(k: Link, heard: nat, depth: byte): Sender { Sender(k.due % WRAP, k.primed, depth, heard % WRAP) }

  function PushDue(r: Runs.Run, due: nat, n: nat, payload: seq<byte>): Runs.Run {
    if n == 0 then r else Runs.Next(PushDue(r, due, n - 1, payload), Runs.Pushed(due + n - 1, payload))
  }

  function Step(k: Link, lead: int, cap: nat, t: Turn): Link
    requires cap > 0
  {
    match t
    case Sent(heard, depth, payload) =>
      var due, n := Later(k.due, heard + 1), Want(SenderOf(k, heard, depth), lead, cap);
      Link(PushDue(k.run, due, n, payload), due + n, true)
    case Popped => k.(run := Runs.Next(k.run, Runs.Popped))
  }

  /** The stream and the heard clock have wrapped equally often; at a pop the queue is within
      half the tag range. */
  predicate Faithful(k: Link, t: Turn) {
    match t
    case Sent(heard, _, _) => k.due / WRAP == (heard + 1) / WRAP
    case Popped => Runs.Allowed(k.run, Runs.Popped)
  }

  /** Nothing accepted so far is due later than what comes next. */
  ghost predicate Sound(k: Link) { Runs.Inv(k.run) && Below(k.run, k.due) }

  lemma {:induction false} PushDueTags(r: Runs.Run, due: nat, n: nat, payload: seq<byte>)
    ensures PushDue(r, due, n, payload).ring == PushTagged(r.ring, due % WRAP, n, payload)
  {
    if n > 0 {
      hide Push;
      PushDueTags(r, due, n - 1, payload);
      SameTag(due, n - 1);
    }
  }

  lemma SameTag(due: nat, j: nat)
    ensures Tag(due % WRAP, j) == (due + j) % WRAP
  {
  }

  /** One frame of the wire is one step of the link. */
  lemma FrameIsStep(l: HB.Layout, h: HB.Host, pins: seq<PinCfg>, values: seq<int>, c: Pi.Command, k: Link, lead: int,
      heard: nat, depth: byte, vals: seq<dword>)
    requires |values| == |pins| && Pi.TableOk(pins, l.outBytes) && |l.fields| == |vals|
    requires StreamSized(l) && l.fields != [] && l.Streaming()
    requires h.motion == k.run.ring && k.due / WRAP == (heard + 1) / WRAP
    ensures var s := SenderOf(k, heard, depth);
      var f := Pi.MosiFrame(l, Pi.AllFramed(pins, l.outBytes), values, c, Stream(l, s, lead, vals));
      var k' := Step(k, lead, l.maxSamples, Sent(heard, depth, FitTo(Setpoint(l, vals), l.SampleLen())));
      HB.Ingest(l, h, f).motion == k'.run.ring && AfterSend(l, s, lead).nextTag == k'.due % WRAP
  {
    hide HB.Ingest, Pi.MosiFrame, Stream, Setpoint, FitTo, PushDue, PushTagged, Want, Resync, Pi.TableOk;
    var s, due := SenderOf(k, heard, depth), Later(k.due, heard + 1);
    StreamTaken(l, h, pins, values, c, s, lead, vals);
    ResyncRight(k.due, heard);
    PushDueTags(k.run, due, Want(s, lead, l.maxSamples), FitTo(Setpoint(l, vals), l.SampleLen()));
    SameTag(due, Want(s, lead, l.maxSamples));
  }

  /** Nothing in the history is due at `due` or later. */
  ghost predicate Below(r: Runs.Run, due: nat) { forall x <- r.gone + r.queue :: x.due < due }

  lemma PushOneSound(r: Runs.Run, due: nat, payload: seq<byte>)
    requires Runs.Inv(r) && Below(r, due)
    ensures var r' := Runs.Next(r, Runs.Pushed(due, payload)); Runs.Inv(r') && Below(r', due + 1)
  {
    hide Push, Runs.Inv;
    Runs.PushKeepsInv(r, due, payload);
  }

  lemma {:induction false} PushDueSound(r: Runs.Run, due: nat, n: nat, payload: seq<byte>)
    requires Runs.Inv(r) && Below(r, due)
    ensures var r' := PushDue(r, due, n, payload); Runs.Inv(r') && Below(r', due + n)
  {
    hide Runs.Inv, Runs.Next, Below;
    if n > 0 {
      PushDueSound(r, due, n - 1, payload);
      PushOneSound(PushDue(r, due, n - 1, payload), due + n - 1, payload);
    }
  }

  lemma StepKeepsSound(k: Link, lead: int, cap: nat, t: Turn)
    requires cap > 0 && Sound(k) && Faithful(k, t)
    ensures Sound(Step(k, lead, cap, t))
  {
    hide Runs.Inv, Runs.Allowed, Want, PushDue;
    match t
    case Sent(heard, depth, payload) =>
      PushDueSound(k.run, Later(k.due, heard + 1), Want(SenderOf(k, heard, depth), lead, cap), payload);
    case Popped =>
      PopMoves(k.run);
      Runs.PopKeepsInv(k.run);
  }

  /** A pop moves samples out, it brings none in. */
  lemma PopMoves(r: Runs.Run)
    ensures Runs.Next(r, Runs.Popped).gone + Runs.Next(r, Runs.Popped).queue == r.gone + r.queue
  {
    hide Pop;
  }

  function After(k: Link, lead: int, cap: nat, ts: seq<Turn>): Link
    requires cap > 0
  {
    if ts == [] then k else Step(After(k, lead, cap, ts[..|ts| - 1]), lead, cap, ts[|ts| - 1])
  }

  /** Every turn of the run is faithful where it happens. */
  ghost predicate AllFaithful(k: Link, lead: int, cap: nat, ts: seq<Turn>)
    requires cap > 0
  {
    forall i :: 0 <= i < |ts| ==> Faithful(After(k, lead, cap, ts[..i]), ts[i])
  }

  lemma {:induction false} RunKeepsSound(k: Link, lead: int, cap: nat, ts: seq<Turn>)
    requires cap > 0 && Sound(k) && AllFaithful(k, lead, cap, ts)
    ensures Sound(After(k, lead, cap, ts))
  {
    hide Sound, Faithful, Step, AllFaithful;
    if ts == [] {
    } else {
      var n := |ts| - 1;
      LastTurn(k, lead, cap, ts);
      RunKeepsSound(k, lead, cap, ts[..n]);
      StepKeepsSound(After(k, lead, cap, ts[..n]), lead, cap, ts[n]);
    }
  }

  lemma LastTurn(k: Link, lead: int, cap: nat, ts: seq<Turn>)
    requires cap > 0 && ts != [] && AllFaithful(k, lead, cap, ts)
    ensures AllFaithful(k, lead, cap, ts[..|ts| - 1]) && Faithful(After(k, lead, cap, ts[..|ts| - 1]), ts[|ts| - 1])
  {
    hide Faithful, After;
    var n := |ts| - 1;
    assert forall i :: 0 <= i < n ==> ts[..n][..i] == ts[..i] && ts[..n][i] == ts[i];
  }

  /** However frames and cycles interleave and whatever the Pi has heard, every setpoint the
      ring accepted in time is handed out, on its own cycle, by the time that cycle is past;
      and nothing else ever is. */
  lemma SetpointsOnTime(clock: nat, lead: int, cap: nat, ts: seq<Turn>, x: Runs.Rec)
    requires cap > 0 && AllFaithful(Link(Runs.Start(clock), 0, false), lead, cap, ts)
    ensures var r := After(Link(Runs.Start(clock), 0, false), lead, cap, ts).run;
      && r.delivered == Runs.Deliveries(r.gone)
      && (x in r.gone + r.queue && x.OnTime() && x.due < r.clock ==> (x.due, x.payload) in r.delivered)
  {
    hide After, AllFaithful, Runs.Deliveries;
    var k := Link(Runs.Start(clock), 0, false);
    Runs.StartInv(clock);
    RunKeepsSound(k, lead, cap, ts);
    var r := After(k, lead, cap, ts).run;
    if x in r.gone + r.queue && x.OnTime() && x.due < r.clock {
      Runs.GoneIfPast(r, x);
    }
  }

  // ---- From the sample onto the drives ----

  /** Fields follow one another, in the sample and in the image. */
  predicate InOrder(fields: seq<StreamField>) {
    forall i, j :: 0 <= i < j < |fields| ==>
      fields[i].sampleOff + fields[i].len <= fields[j].sampleOff
        && fields[i].imageOff + fields[i].len <= fields[j].imageOff
  }

  /** Every field has its pin, of its own width. */
  predicate StreamOk(l: HB.Layout, pins: seq<PinCfg>) {
    && FieldsFit(l) && InOrder(l.fields) && Sourced(l, pins)
    && forall k :: 0 <= k < |l.fields| ==>
      pins[Source(l, pins, k)].halType != Bit && pins[Source(l, pins, k)].bitLen == 8 * l.fields[k].len
  }

  lemma {:induction false} PayloadHolds(l: HB.Layout, vals: seq<dword>, n: nat, k: nat)
    requires k < n <= |l.fields| == |vals| && FieldsFit(l) && InOrder(l.fields)
    ensures l.fields[k].sampleOff + l.fields[k].len <= l.sampleBytes
    ensures var f := l.fields[k];
      Payload(l, vals, n)[f.sampleOff..f.sampleOff + f.len] == Le(vals[k], f.len)
  {
    hide Le, Splice, Zeros;
    assert l.fields[k] in l.fields && l.fields[n - 1] in l.fields;
    var before, f, last := Payload(l, vals, n - 1), l.fields[k], l.fields[n - 1];
    if k < n - 1 {
      PayloadHolds(l, vals, n - 1, k);
      SpliceElsewhere(before, last.sampleOff, Le(vals[n - 1], last.len), f.sampleOff, f.sampleOff + f.len);
    } else {
      SpliceHere(before, f.sampleOff, Le(vals[k], f.len));
    }
  }

  lemma SpliceElsewhere(s: seq<byte>, at: nat, d: seq<byte>, lo: nat, hi: nat)
    requires at + |d| <= |s| && lo <= hi <= |s| && (hi <= at || at + |d| <= lo)
    ensures Splice(s, at, d)[lo..hi] == s[lo..hi]
  {
  }

  lemma SpliceHere(s: seq<byte>, at: nat, d: seq<byte>)
    requires at + |d| <= |s|
    ensures Splice(s, at, d)[at..at + |d|] == d
  {
  }

  /** What the firmware's copy loop leaves at field `k`. */
  lemma {:induction false} FieldCopied(image: seq<byte>, payload: seq<byte>, fields: seq<StreamField>, k: nat)
    requires InOrder(fields) && k < |fields|
    requires var f := fields[k]; f.sampleOff + f.len <= |payload| && f.imageOff + f.len <= |image|
    ensures var f := fields[k];
      HB.CopyFields(image, payload, fields)[f.imageOff..f.imageOff + f.len] == payload[f.sampleOff..f.sampleOff + f.len]
    decreases |fields|
  {
    hide Splice, InOrder;
    var rest, next, f := fields[1..], HB.CopyField(image, payload, fields[0]), fields[k];
    RestInOrder(fields);
    if k > 0 {
      assert rest[k - 1] == f;
      FieldCopied(next, payload, rest, k - 1);
    } else {
      SpliceHere(image, f.imageOff, payload[f.sampleOff..f.sampleOff + f.len]);
      OthersCopied(next, payload, rest, f.imageOff + f.len, f.imageOff);
    }
  }

  lemma RestInOrder(fields: seq<StreamField>)
    requires InOrder(fields) && fields != []
    ensures InOrder(fields[1..]) && forall f <- fields[1..] :: fields[0].imageOff + fields[0].len <= f.imageOff
  {
  }

  /** Fields from byte `lo` on leave everything before it alone. */
  lemma {:induction false} OthersCopied(image: seq<byte>, payload: seq<byte>, fields: seq<StreamField>, lo: nat,
      at: nat)
    requires at <= lo <= |image| && forall f <- fields :: lo <= f.imageOff
    ensures HB.CopyFields(image, payload, fields)[at..lo] == image[at..lo]
    decreases |fields|
  {
    if fields == [] {
    } else {
      var f, rest := fields[0], fields[1..];
      assert f in fields && forall x <- rest :: x in fields;
      if f.sampleOff + f.len <= |payload| && f.imageOff + f.len <= |image| {
        SpliceElsewhere(image, f.imageOff, payload[f.sampleOff..f.sampleOff + f.len], at, lo);
      }
      OthersCopied(HB.CopyField(image, payload, f), payload, rest, lo, at);
    }
  }

  /** A pin whose bytes are the low bytes of `v` reads as `v`, cut to its width. */
  lemma ReadLow(image: seq<byte>, p: PinCfg, v: int, n: nat)
    requires Placed(p, |image|) && p.halType != Bit && p.bitLen == 8 * n && n <= 4
    requires image[p.byteOffset..p.byteOffset + n] == Le(v % WRAP, n)
    ensures Read(image, p) == Canon(p, v)
  {
    hide Canon, SignExtend, Le, FromLe;
    var w := Write(image, p, v);
    Pi.LowBytes(v, n);
    assert Window(image, p.byteOffset, n) == image[p.byteOffset..p.byteOffset + n];
    WindowOfOverlay(image, p.byteOffset, Le(v % 0x1_0000_0000_0000_0000, n));
    assert Read(image, p) == Read(w, p);
    ReadAfterWrite(image, p, v);
  }

  /** On the cycle a setpoint is handed out, each streamed pin holds on the drives' image what
      LinuxCNC had set it to when the sample was sent, cut to the pin's width: whatever the
      immediate outputs say. */
  lemma StreamedPinShows(l: HB.Layout, h: HB.Host, pins: seq<PinCfg>, values: seq<int>, image: seq<byte>, cycle: dword,
      k: nat)
    requires |values| == |pins| && Pi.TableOk(pins, l.outBytes) && StreamOk(l, pins) && k < |l.fields|
    requires h.outValid && l.Streaming() && |h.stagedOut| == l.outBytes <= |image|
    requires Pop(h.motion, cycle).1 == Some(FitTo(Setpoint(l, Streamed(l, pins, values)), l.SampleLen()))
    requires l.fields[k].sampleOff + l.fields[k].len <= l.SampleLen()
    ensures var i := Source(l, pins, k);
      Read(HB.OutputImage(l, h, image, cycle), pins[i]) == Canon(pins[i], values[i])
  {
    hide Read, Canon, Pop, Payload, HB.CopyFields, HB.Immediate, Le, Pi.OutputsOk;
    var vals, f, i := Streamed(l, pins, values), l.fields[k], Source(l, pins, k);
    var p, sample, im := pins[i], FitTo(Setpoint(l, vals), l.SampleLen()), HB.Immediate(l, h, image);
    SourceFits(l, pins, i);
    assert l.fields[k] in l.fields;
    PayloadHolds(l, vals, |vals|, k);
    assert sample[f.sampleOff..f.sampleOff + f.len] == Setpoint(l, vals)[f.sampleOff..f.sampleOff + f.len];
    FieldCopied(im, sample, l.fields, k);
    ReadLow(HB.CopyFields(im, sample, l.fields), p, values[i], f.len);
  }

  lemma SourceFits(l: HB.Layout, pins: seq<PinCfg>, i: nat)
    requires Pi.TableOk(pins, l.outBytes) && i < |pins| && pins[i].dir == Output
    ensures Placed(pins[i], l.outBytes)
    ensures forall n :: n >= l.outBytes ==> Placed(pins[i], n)
  {
    assert pins[i] in pins;
  }
}
