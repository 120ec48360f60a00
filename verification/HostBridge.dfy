/** The host-bridge frame codec and shared staging state (src/hal/host_bridge.rs).

    `Host` is the bridge's state as a value; `Ingest`, `ApplyOutputs`, `TickWatchdog` and
    `BuildReply` say what each operation makes of it. The class at the end is the source's
    object, its buffers changed in place. */
module HostBridge {
  import opened Bytes
  import opened Config
  import opened MotionBuffer
  import Crc

  const MAGIC: word := 0xA7EC
  const VERSION: byte := 1
  const MOSI_HDR: nat := 8
  const MISO_HDR: nat := 18
  const CRC_LEN: nat := 2
  const STREAM_HDR: nat := 1

  lemma {:induction false} BlockFits(i: nat, n: nat, stride: nat)
    requires i < n
    ensures Times(i, stride) + stride <= Times(n, stride)
  {
    if i + 1 < n {
      BlockFits(i, n - 1, stride);
    }
  }

  /** The generated constants of one bus. */
  datatype Layout = Layout(outBytes: nat, inBytes: nat, maxSamples: nat, sampleBytes: nat, fields: seq<StreamField>) {
    function Stride(): nat { 4 + sampleBytes }
    function StreamOff(): nat { MOSI_HDR + outBytes }
    function MosiLen(): nat { MOSI_HDR + outBytes + STREAM_HDR + Times(maxSamples, Stride()) + CRC_LEN }
    function MisoLen(): nat { MISO_HDR + inBytes + CRC_LEN }
    function FrameLen(): nat { if MosiLen() > MisoLen() then MosiLen() else MisoLen() }
    function SampleLen(): nat { if sampleBytes > SAMPLE_MAX then SAMPLE_MAX else sampleBytes }
    predicate Streaming() { SampleLen() > 0 }
  }

  datatype Host = Host(
    stagedOut: seq<byte>, flags: byte, hostSeq: word, hostWdog: word, lastSeenWdog: word, stall: word,
    outValid: bool, stagedIn: seq<byte>, teensyWdog: word, crcErrs: dword, seqErrs: dword, framesIn: dword,
    motion: Ring)

  datatype ReplyStatus = ReplyStatus(
    linkUp: bool, phase: byte, wkc: byte, expectedWkc: byte, cycleIndex: dword, faultFlags: byte, hostTimeout: bool)

  function Initial(l: Layout): Host {
    Host(Zeros(l.outBytes), 0, 0, 0, 0, 0, false, Zeros(l.FrameLen()), 0, 0, 0, 0, Ring([], false, false))
  }

  // ---- Ingest ----

  function Crc16Word(data: seq<byte>): word { Crc.Crc16(data) as int }

  /** The frame passes the length, magic and checksum gates. */
  predicate Accepts(l: Layout, mosi: seq<byte>) {
    && |mosi| >= l.MosiLen()
    && FromLe16(mosi[0], mosi[1]) == MAGIC
    && Crc16Word(mosi[..l.MosiLen() - CRC_LEN]) == FromLe16(mosi[l.MosiLen() - 2], mosi[l.MosiLen() - 1])
  }

  function Bump(n: dword): dword { (n + 1) % 0x1_0000_0000 }

  /** Sample `i` of the stream block: its tag and its payload. */
  function SampleAt(l: Layout, frame: seq<byte>, i: nat): Sample
    requires i < l.maxSamples && |frame| >= l.MosiLen()
  {
    BlockFits(i, l.maxSamples, l.Stride());
    var base := l.StreamOff() + STREAM_HDR + Times(i, l.Stride());
    Sample(FromLe32(frame[base..base + 4]), FitTo(frame[base + 4..base + l.Stride()], l.SampleLen()))
  }

  /** The samples `i .. count` of the frame pushed in order. */
  function PushSamples(l: Layout, r: Ring, frame: seq<byte>, i: nat, count: nat): Ring
    requires i <= count <= l.maxSamples && |frame| >= l.MosiLen()
    decreases count - i
  {
    if i == count then r else PushSamples(l, Push(r, SampleAt(l, frame, i)), frame, i + 1, count)
  }

  function SampleCount(l: Layout, frame: seq<byte>): (n: nat)
    requires |frame| >= l.MosiLen()
    ensures n <= l.maxSamples
  {
    var c := frame[l.StreamOff()];
    if c < l.maxSamples then c else l.maxSamples
  }

  /** The fixed part of an accepted frame taken in. */
  function Absorbed(l: Layout, h: Host, mosi: seq<byte>): Host
    requires |mosi| >= l.MosiLen()
  {
    var seqNo := FromLe16(mosi[4], mosi[5]);
    h.(flags := mosi[3], hostSeq := seqNo, hostWdog := FromLe16(mosi[6], mosi[7]),
       seqErrs := if h.outValid && seqNo == h.hostSeq then Bump(h.seqErrs) else h.seqErrs,
       stagedOut := mosi[MOSI_HDR..MOSI_HDR + l.outBytes], outValid := true, framesIn := Bump(h.framesIn))
  }

  function Ingest(l: Layout, h: Host, mosi: seq<byte>): Host {
    if !Accepts(l, mosi) then h.(crcErrs := Bump(h.crcErrs))
    else
      Absorbed(l, h, mosi).(
        motion := if l.Streaming() then PushSamples(l, h.motion, mosi, 0, SampleCount(l, mosi)) else h.motion)
  }

  // ---- The version byte ----

  /** `frame` with version `v`, and its seal made to fit. */
  function Resealed(l: Layout, frame: seq<byte>, v: byte): (f: seq<byte>)
    requires |frame| >= l.MosiLen()
    ensures |f| == |frame|
  {
    var body := frame[..l.MosiLen() - CRC_LEN][2 := v];
    body + Le16(Crc16Word(body)) + frame[l.MosiLen()..]
  }

  lemma ResealedAt(l: Layout, frame: seq<byte>, v: byte)
    requires |frame| >= l.MosiLen()
    ensures var n, f := l.MosiLen() - CRC_LEN, Resealed(l, frame, v);
      && f[..n] == frame[..n][2 := v] && f[2] == v
      && FromLe16(f[n], f[n + 1]) == Crc16Word(f[..n])
      && forall i :: 0 <= i < n && i != 2 ==> f[i] == frame[i]
  {
    hide Crc16Word;
    var n, f := l.MosiLen() - CRC_LEN, Resealed(l, frame, v);
    var body := frame[..n][2 := v];
    assert f[..n] == body;
    assert f[n] == Le16(Crc16Word(body))[0] && f[n + 1] == Le16(Crc16Word(body))[1];
  }

  /** The source does not look at the version: a frame of any version is taken in, and to the
      same effect, if only its seal is right. So what is taken in is of the version the two
      sides share exactly if it was sent so. */
  lemma VersionNotRead(l: Layout, h: Host, frame: seq<byte>, v: byte)
    requires |frame| >= l.MosiLen() && FromLe16(frame[0], frame[1]) == MAGIC
    ensures var f := Resealed(l, frame, v);
      && Accepts(l, f) && Ingest(l, h, f) == Ingest(l, h, Resealed(l, frame, VERSION))
      && (Accepts(l, f) && f[2] == VERSION <==> v == VERSION)
  {
    hide Crc16Word, PushSamples, SampleCount, Resealed, Layout.StreamOff, Layout.MosiLen;
    var f, g := Resealed(l, frame, v), Resealed(l, frame, VERSION);
    ResealedAt(l, frame, v);
    ResealedAt(l, frame, VERSION);
    MosiParts(l);
    SameAbsorbed(l, h, f, g);
    if l.Streaming() {
      SameCount(l, f, g);
      SameSamples(l, h.motion, f, g, 0, SampleCount(l, f));
    }
  }

  lemma MosiParts(l: Layout)
    ensures MOSI_HDR + l.outBytes == l.StreamOff()
      && l.StreamOff() + STREAM_HDR + Times(l.maxSamples, l.Stride()) == l.MosiLen() - CRC_LEN
  {
  }

  /** Alike but for the version and the seal. */
  predicate SameBody(l: Layout, f: seq<byte>, g: seq<byte>) {
    |f| >= l.MosiLen() && |g| >= l.MosiLen() && forall i :: 0 <= i < l.MosiLen() - CRC_LEN && i != 2 ==> f[i] == g[i]
  }

  lemma SameAbsorbed(l: Layout, h: Host, f: seq<byte>, g: seq<byte>)
    requires SameBody(l, f, g)
    ensures Absorbed(l, h, f) == Absorbed(l, h, g)
  {
    hide Layout.MosiLen;
    MosiParts(l);
    assert f[MOSI_HDR..MOSI_HDR + l.outBytes] == g[MOSI_HDR..MOSI_HDR + l.outBytes];
  }

  lemma SameCount(l: Layout, f: seq<byte>, g: seq<byte>)
    requires SameBody(l, f, g)
    ensures SampleCount(l, f) == SampleCount(l, g)
  {
    hide Layout.MosiLen;
    MosiParts(l);
  }

  lemma {:induction false} SameSamples(l: Layout, r: Ring, f: seq<byte>, g: seq<byte>, i: nat, count: nat)
    requires SameBody(l, f, g) && i <= count <= l.maxSamples
    ensures PushSamples(l, r, f, i, count) == PushSamples(l, r, g, i, count)
    decreases count - i
  {
    if i < count {
      hide Layout.MosiLen, Layout.StreamOff, Push, SameBody;
      assert SampleAt(l, f, i) == SampleAt(l, g, i) by {
        SameSample(l, f, g, i);
      }
      SameSamples(l, Push(r, SampleAt(l, f, i)), f, g, i + 1, count);
    }
  }

  lemma SameSample(l: Layout, f: seq<byte>, g: seq<byte>, i: nat)
    requires SameBody(l, f, g) && i < l.maxSamples
    ensures SampleAt(l, f, i) == SampleAt(l, g, i)
  {
    hide Layout.MosiLen, Layout.StreamOff;
    MosiParts(l);
    BlockFits(i, l.maxSamples, l.Stride());
    var base := l.StreamOff() + STREAM_HDR + Times(i, l.Stride());
    assert f[base..base + 4] == g[base..base + 4] && f[base + 4..base + l.Stride()] == g[base + 4..base + l.Stride()];
  }

  /** A burst of at most 16 altered bits anywhere before the checksum is caught. */
  lemma BurstRefused(l: Layout, h: Host, good: seq<byte>, bad: seq<byte>, lo: nat)
    requires Accepts(l, good) && |bad| == |good|
    requires var n := l.MosiLen() - CRC_LEN;
      && bad[n..] == good[n..] && bad[..n] != good[..n]
      && forall i :: 0 <= i < 8 * n && Crc.Bits(good[..n])[i] != Crc.Bits(bad[..n])[i] ==> lo <= i < lo + 16
    ensures Ingest(l, h, bad) == h.(crcErrs := Bump(h.crcErrs))
  {
    var n := l.MosiLen() - CRC_LEN;
    assert n <= |good|;
    hide Crc.Crc16, Crc.Bits, Accepts;
    Crc.BurstDetected(good[..n], bad[..n], lo);
    ChecksumDiffers(l, good, bad);
  }

  /** A different checksum over the covered bytes, against the same stored one. */
  lemma ChecksumDiffers(l: Layout, good: seq<byte>, bad: seq<byte>)
    requires Accepts(l, good) && |bad| == |good|
    requires var n := l.MosiLen() - CRC_LEN;
      bad[n..] == good[n..] && Crc.Crc16(bad[..n]) != Crc.Crc16(good[..n])
    ensures !Accepts(l, bad)
  {
    hide Crc.Crc16;
    var n := l.MosiLen() - CRC_LEN;
    if Crc16Word(bad[..n]) == Crc16Word(good[..n]) {
      WordInjective(Crc.Crc16(good[..n]), Crc.Crc16(bad[..n]));
    }
    assert good[n] == good[n..][0] && good[n + 1] == good[n..][1];
    assert bad[n] == bad[n..][0] && bad[n + 1] == bad[n..][1];
  }

  lemma WordInjective(x: bv16, y: bv16)
    requires x as int == y as int
    ensures x == y
  {
    assert (x as int) as bv16 == x && (y as int) as bv16 == y;
  }

  // ---- Outputs, watchdog, reply ----

  function CopyField(image: seq<byte>, payload: seq<byte>, f: StreamField): (r: seq<byte>)
    ensures |r| == |image|
  {
    if f.sampleOff + f.len <= |payload| && f.imageOff + f.len <= |image|
    then Splice(image, f.imageOff, payload[f.sampleOff..f.sampleOff + f.len])
    else image
  }

  function CopyFields(image: seq<byte>, payload: seq<byte>, fields: seq<StreamField>): (r: seq<byte>)
    ensures |r| == |image|
    decreases |fields|
  {
    if fields == [] then image else CopyFields(CopyField(image, payload, fields[0]), payload, fields[1..])
  }

  function Immediate(l: Layout, h: Host, image: seq<byte>): (r: seq<byte>)
    requires |h.stagedOut| == l.outBytes
    ensures |r| == |image|
  {
    var n := if l.outBytes < |image| then l.outBytes else |image|;
    h.stagedOut[..n] + image[n..]
  }

  /** The image the drives will see: staged outputs, then this cycle's motion sample. */
  function OutputImage(l: Layout, h: Host, image: seq<byte>, cycle: dword): (r: seq<byte>)
    requires |h.stagedOut| == l.outBytes
    ensures |r| == |image|
  {
    if !h.outValid then image
    else if !l.Streaming() then Immediate(l, h, image)
    else
      match Pop(h.motion, cycle).1
      case None => Immediate(l, h, image)
      case Some(payload) => CopyFields(Immediate(l, h, image), payload, l.fields)
  }

  function AfterOutputs(l: Layout, h: Host, cycle: dword): Host {
    if h.outValid && l.Streaming() then h.(motion := Pop(h.motion, cycle).0) else h
  }

  /** The stall count is in the result's `stall`. */
  function TickWatchdog(h: Host): Host {
    if h.hostWdog != h.lastSeenWdog then h.(lastSeenWdog := h.hostWdog, stall := 0)
    else if h.outValid then h.(stall := if h.stall < 0xFFFF then h.stall + 1 else h.stall)
    else h
  }

  predicate EnableRequested(h: Host) { h.outValid && h.flags % 2 == 1 }
  predicate FaultResetRequested(h: Host) { h.outValid && (h.flags / 2) % 2 == 1 }
  predicate QuickStopRequested(h: Host) { (h.flags / 4) % 2 == 1 }
  predicate Underrun(l: Layout, h: Host) { l.Streaming() && h.motion.underrun }

  function StatusFlags(st: ReplyStatus): byte {
    (if st.linkUp then 1 else 0) + (if st.phase == 2 then 2 else 0)
    + (if st.phase == 3 then 4 else 0) + (if st.hostTimeout then 8 else 0)
  }

  function ReplyHeader(h: Host, wdog: word, st: ReplyStatus): (s: seq<byte>)
    ensures |s| == MISO_HDR
  {
    Le16(MAGIC) + [VERSION, StatusFlags(st)] + Le16(h.hostSeq) + Le16(wdog) + Le32(st.cycleIndex)
    + [st.wkc, st.expectedWkc, st.phase, st.faultFlags, if |h.motion.q| < 255 then |h.motion.q| else 255, 0]
  }

  /** `image[in_off..in_off + n]` with `n = IN_BYTES.min(image.len().saturating_sub(in_off))`. */
  function InputSlice(l: Layout, image: seq<byte>): (s: seq<byte>)
    ensures |s| <= l.inBytes
  {
    var n := if l.outBytes <= |image| then |image| - l.outBytes else 0;
    var n := if l.inBytes < n then l.inBytes else n;
    if n > 0 then image[l.outBytes..l.outBytes + n] else []
  }

  /** The input region of the image, zero-filled if the image is short. */
  function Inputs(l: Layout, image: seq<byte>): (s: seq<byte>)
    ensures |s| == l.inBytes
  {
    FitTo(InputSlice(l, image), l.inBytes)
  }

  function ReplyFrame(l: Layout, h: Host, wdog: word, image: seq<byte>, st: ReplyStatus): (s: seq<byte>)
    ensures |s| == l.MisoLen()
  {
    var body := ReplyHeader(h, wdog, st) + Inputs(l, image);
    body + Le16(Crc16Word(body))
  }

  function BuildReply(l: Layout, h: Host, image: seq<byte>, st: ReplyStatus): Host
    requires |h.stagedIn| == l.FrameLen()
  {
    var wdog: word := (h.teensyWdog + 1) % 0x1_0000;
    h.(teensyWdog := wdog, stagedIn := ReplyFrame(l, h, wdog, image, st) + h.stagedIn[l.MisoLen()..])
  }

  // ---- The bridge object ----

  class Bridge {
    const layout: Layout
    const stagedOut: array<byte>
    var flags: byte
    var hostSeq: word
    var hostWdog: word
    var lastSeenWdog: word
    var stall: word
    var outValid: bool
    const stagedIn: array<byte>
    var teensyWdog: word
    var crcErrs: dword
    var seqErrs: dword
    var framesIn: dword
    const motion: MotionRing

    ghost function Repr(): set<object> {
      {this, stagedOut, stagedIn, motion, motion.data, motion.tag}
    }

    ghost predicate Valid()
      reads Repr()
    {
      && stagedOut.Length == layout.outBytes && stagedIn.Length == layout.FrameLen() && stagedOut != stagedIn
      && motion.Valid() && motion.sampleLen == layout.SampleLen()
    }

    ghost function Model(): Host
      reads Repr()
      requires Valid()
    {
      Host(stagedOut[..], flags, hostSeq, hostWdog, lastSeenWdog, stall, outValid, stagedIn[..], teensyWdog,
           crcErrs, seqErrs, framesIn, motion.Model())
    }

    constructor (layout: Layout)
      ensures Valid() && fresh(Repr()) && this.layout == layout && Model() == Initial(layout)
    {
      this.layout := layout;
      stagedOut := new byte[layout.outBytes](_ => 0);
      stagedIn := new byte[layout.FrameLen()](_ => 0);
      motion := new MotionRing(layout.sampleBytes);
      flags, hostSeq, hostWdog, lastSeenWdog, stall, outValid := 0, 0, 0, 0, 0, false;
      teensyWdog, crcErrs, seqErrs, framesIn := 0, 0, 0, 0;
      new;
      assert stagedOut[..] == Zeros(layout.outBytes) && stagedIn[..] == Zeros(layout.FrameLen());
    }

    method IngestFrame(mosi: seq<byte>)
      requires Valid()
      modifies Repr()
      ensures Valid() && Model() == Ingest(layout, old(Model()), mosi)
    {
      var ok := Check(mosi);
      if !ok {
        crcErrs := Bump(crcErrs);
        return;
      }
      Absorb(mosi);
      if motion.Active() {
        PushStream(mosi);
      }
    }

    /** Everything but the stream block of an accepted frame. */
    method Absorb(mosi: seq<byte>)
      requires Valid() && |mosi| >= layout.MosiLen()
      modifies this, stagedOut
      ensures Valid()
      ensures Model() == Absorbed(layout, old(Model()), mosi)
    {
      hide FromLe16, MotionRing.Valid, MotionRing.Model, Bump, Layout.FrameLen, Layout.SampleLen;
      var seqNo := FromLe16(mosi[4], mosi[5]);
      if outValid && seqNo == hostSeq {
        seqErrs := Bump(seqErrs);
      }
      flags, hostSeq, hostWdog := mosi[3], seqNo, FromLe16(mosi[6], mosi[7]);
      CopyInto(stagedOut, 0, mosi[MOSI_HDR..MOSI_HDR + layout.outBytes]);
      outValid, framesIn := true, Bump(framesIn);
    }

    /** The gates of `ingest`, in the source's order. */
    method Check(mosi: seq<byte>) returns (ok: bool)
      requires Valid()
      ensures ok == Accepts(layout, mosi)
    {
      if |mosi| < layout.MosiLen() || FromLe16(mosi[0], mosi[1]) != MAGIC {
        return false;
      }
      var crcPos := layout.MosiLen() - CRC_LEN;
      var crc := Crc.ComputeCrc16(mosi[..crcPos]);
      return crc as int == FromLe16(mosi[crcPos], mosi[crcPos + 1]);
    }

    method PushStream(mosi: seq<byte>)
      requires Valid() && |mosi| >= layout.MosiLen()
      modifies motion, motion.data, motion.tag
      ensures Valid()
      ensures motion.Model() == PushSamples(layout, old(motion.Model()), mosi, 0, SampleCount(layout, mosi))
    {
      var count := SampleCount(layout, mosi);
      for i := 0 to count
        invariant Valid()
        invariant PushSamples(layout, motion.Model(), mosi, i, count)
               == PushSamples(layout, old(motion.Model()), mosi, 0, count)
      {
        BlockFits(i, layout.maxSamples, layout.Stride());
        var base := layout.StreamOff() + STREAM_HDR + Times(i, layout.Stride());
        var _ := motion.PushSample(FromLe32(mosi[base..base + 4]), mosi[base + 4..base + layout.Stride()]);
      }
    }

    method Apply(image: array<byte>, cycle: dword)
      requires Valid() && image !in Repr()
      modifies motion, image
      ensures Valid()
      ensures image[..] == OutputImage(layout, old(Model()), old(image[..]), cycle)
      ensures Model() == AfterOutputs(layout, old(Model()), cycle)
    {
      if !outValid {
        return;
      }
      var n := if layout.outBytes < image.Length then layout.outBytes else image.Length;
      ghost var was := image[..];
      CopyInto(image, 0, stagedOut[..n]);
      assert image[..] == Immediate(layout, old(Model()), was);
      if motion.Active() {
        var slot := motion.PopSample(cycle);
        if slot.Some? {
          WriteFields(image, motion.Payload(slot.value));
        }
      }
    }

    method WriteFields(image: array<byte>, payload: seq<byte>)
      modifies image
      ensures image[..] == CopyFields(old(image[..]), payload, layout.fields)
    {
      for i := 0 to |layout.fields|
        invariant CopyFields(image[..], payload, layout.fields[i..])
          == CopyFields(old(image[..]), payload, layout.fields)
      {
        var f := layout.fields[i];
        assert layout.fields[i..][1..] == layout.fields[i + 1..];
        if f.sampleOff + f.len <= |payload| && f.imageOff + f.len <= image.Length {
          CopyInto(image, f.imageOff, payload[f.sampleOff..f.sampleOff + f.len]);
        }
      }
    }

    method Watchdog() returns (stalled: word)
      requires Valid()
      modifies this`lastSeenWdog, this`stall
      ensures Valid() && Model() == TickWatchdog(old(Model())) && stalled == Model().stall
    {
      if hostWdog != lastSeenWdog {
        lastSeenWdog, stall := hostWdog, 0;
      } else if outValid {
        stall := if stall < 0xFFFF then stall + 1 else stall;
      }
      return stall;
    }

    predicate Enable()
      reads this`flags, this`outValid
    {
      outValid && flags % 2 == 1
    }

    predicate FaultReset()
      reads this`flags, this`outValid
    {
      outValid && (flags / 2) % 2 == 1
    }

    predicate QuickStop()
      reads this`flags
    {
      (flags / 4) % 2 == 1
    }

    method MotionUnderrun() returns (underrun: bool)
      requires Valid()
      ensures underrun == Underrun(layout, Model())
    {
      return motion.Active() && motion.underrun;
    }

    method StageReply(image: array<byte>, st: ReplyStatus)
      requires Valid() && image !in Repr()
      modifies this`teensyWdog, stagedIn
      ensures Valid() && Model() == BuildReply(layout, old(Model()), image[..], st)
    {
      ghost var h, was := Model(), stagedIn[..];
      teensyWdog := (teensyWdog + 1) % 0x1_0000;
      var header := Le16(MAGIC) + [VERSION, StatusFlags(st)] + Le16(hostSeq) + Le16(teensyWdog) + Le32(st.cycleIndex)
        + [st.wkc, st.expectedWkc, st.phase, st.faultFlags, if motion.len < 255 then motion.len else 255, 0];
      ComposeReply(stagedIn, header, InputSlice(layout, image[..]), layout.inBytes);
    }

    /** The reply bytes the SPI task clocks out. */
    function Reply(): seq<byte>
      reads stagedIn
      requires stagedIn.Length == layout.FrameLen()
    {
      stagedIn[..layout.MisoLen()]
    }
  }

  /** Zero the frame, lay down header and inputs, seal with the checksum. */
  method ComposeReply(buf: array<byte>, header: seq<byte>, inputs: seq<byte>, inBytes: nat)
    requires |header| == MISO_HDR && |inputs| <= inBytes && MISO_HDR + inBytes + CRC_LEN <= buf.Length
    modifies buf
    ensures var body := header + FitTo(inputs, inBytes);
      buf[..] == body + Le16(Crc16Word(body)) + old(buf[..])[MISO_HDR + inBytes + CRC_LEN..]
  {
    ghost var was := buf[..];
    var len := MISO_HDR + inBytes + CRC_LEN;
    CopyInto(buf, 0, Zeros(len));
    CopyInto(buf, 0, header);
    CopyInto(buf, MISO_HDR, inputs);
    LayReply(was, header, inputs, inBytes);
    var body := buf[..len - CRC_LEN];
    ghost var mid := buf[..];
    assert mid == (header + FitTo(inputs, inBytes)) + (Zeros(CRC_LEN) + was[len..]);
    assert body == header + FitTo(inputs, inBytes);
    var crc := Crc.ComputeCrc16(body);
    CopyInto(buf, len - CRC_LEN, Le16(crc as int));
    SpliceTail(body, Zeros(CRC_LEN) + was[len..], len - CRC_LEN, Le16(crc as int));
    assert (Zeros(CRC_LEN) + was[len..])[CRC_LEN..] == was[len..];
  }

  lemma LayReply(was: seq<byte>, header: seq<byte>, inputs: seq<byte>, inBytes: nat)
    requires |header| == MISO_HDR && |inputs| <= inBytes && MISO_HDR + inBytes + CRC_LEN <= |was|
    ensures var len := MISO_HDR + inBytes + CRC_LEN;
      Splice(Splice(Splice(was, 0, Zeros(len)), 0, header), MISO_HDR, inputs)
      == (header + FitTo(inputs, inBytes)) + (Zeros(CRC_LEN) + was[len..])
  {
  }
}
