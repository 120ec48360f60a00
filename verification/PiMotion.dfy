/** The sending half of the Pi component (linuxcnc/teensy_ecat_bridge.c:139-181, 195-252): the
    look-ahead motion stream, and the frame `update` puts together around it. */
module PiMotion {
  import opened Bytes
  import opened Config
  import opened MotionBuffer
  import opened ProcessData
  import HB = HostBridge
  import Pi = PiBridge
  import Crc

  /** Where the stream stands: the next tag, whether anything was sent yet, and what the last
      reply said of the ring's depth and of the firmware's cycle. */
  datatype Sender = Sender(nextTag: dword, primed: bool, depth: byte, cycle: dword)

  function NextCycle(c: dword): dword { (c + 1) % WRAP }

  /** Tags that have fallen behind the firmware's clock restart just past it. */
  function Resync(tag: dword, cycle: dword): dword { if tag < NextCycle(cycle) then NextCycle(cycle) else tag }

  /** Samples in the next frame: the whole lead at first, then a refill, else one. */
  function Want(s: Sender, lead: int, cap: nat): (n: nat)
    requires cap > 0
    ensures 1 <= n <= cap
    ensures var target := if lead > 0 then lead else 1;
      if !s.primed then n == target || (n == cap < target)
      else if s.depth <= target then s.depth + n == target + 1 || (n == cap < target + 1 - s.depth)
      else n == 1
  {
    var target := if lead > 0 then lead else 1;
    var want := if !s.primed then target else if s.depth < target then target - s.depth + 1 else 1;
    if want > cap then cap else want
  }

  function Tag(first: dword, j: nat): dword { (first + j) % WRAP }

  /** Every field lies in the sample, and holds no more than a HAL value. */
  predicate FieldsFit(l: HB.Layout) { forall f <- l.fields :: f.sampleOff + f.len <= l.sampleBytes && f.len <= 4 }

  /** What the loops below rely on: fields that fit, at most 32 samples a frame, and at least one
      if there is anything to stream. The generator does not see to all of it; the module
      `GeneratedBus` says when it holds. */
  predicate StreamSized(l: HB.Layout) { FieldsFit(l) && l.maxSamples <= 32 && (l.fields != [] ==> l.maxSamples > 0) }

  /** One sample's payload once its first `k` fields have been put. */
  function Payload(l: HB.Layout, vals: seq<dword>, k: nat): (p: seq<byte>)
    requires k <= |l.fields| == |vals| && FieldsFit(l)
    ensures |p| == l.sampleBytes
  {
    if k == 0 then Zeros(l.sampleBytes)
    else Splice(Payload(l, vals, k - 1), l.fields[k - 1].sampleOff, Le(vals[k - 1], l.fields[k - 1].len))
  }

  function Setpoint(l: HB.Layout, vals: seq<dword>): (p: seq<byte>)
    requires |l.fields| == |vals| && FieldsFit(l)
    ensures |p| == l.sampleBytes
  {
    Payload(l, vals, |vals|)
  }

  function Samples(first: dword, n: nat, payload: seq<byte>): (s: seq<byte>)
    ensures |s| == Times(n, 4 + |payload|)
  {
    if n == 0 then [] else Samples(first, n - 1, payload) + (Le32(Tag(first, n - 1)) + payload)
  }

  lemma {:induction false} TimesLeft(n: nat, m: nat, stride: nat)
    requires n <= m
    ensures Times(n, stride) + Times(m - n, stride) == Times(m, stride)
  {
    if n < m {
      TimesLeft(n, m - 1, stride);
    }
  }

  /** The stream block of the next frame. */
  function Stream(l: HB.Layout, s: Sender, lead: int, vals: seq<dword>): (b: seq<byte>)
    requires |l.fields| == |vals| && StreamSized(l)
    ensures |b| == Pi.StreamLen(l)
  {
    if l.fields == [] then Zeros(Pi.StreamLen(l))
    else
      var n := Want(s, lead, l.maxSamples);
      TimesLeft(n, l.maxSamples, l.Stride());
      [n] + Samples(Resync(s.nextTag, s.cycle), n, Setpoint(l, vals)) + Zeros(Times(l.maxSamples - n, l.Stride()))
  }

  /** The sender after building that block. */
  function AfterSend(l: HB.Layout, s: Sender, lead: int): Sender
    requires StreamSized(l)
  {
    if l.fields == [] then s
    else s.(nextTag := Tag(Resync(s.nextTag, s.cycle), Want(s, lead, l.maxSamples)), primed := true)
  }

  // ---- Which pin feeds which field ----

  /** The first output pin at an image offset. */
  function SourceFrom(pins: seq<PinCfg>, imageOff: nat, i: nat): (r: Option<nat>)
    requires i <= |pins|
    ensures r.Some? ==> i <= r.value < |pins| && pins[r.value].dir == Output && pins[r.value].byteOffset == imageOff
    ensures r.None? ==> forall j :: i <= j < |pins| ==> !(pins[j].dir == Output && pins[j].byteOffset == imageOff)
    decreases |pins| - i
  {
    if i == |pins| then None
    else if pins[i].dir == Output && pins[i].byteOffset == imageOff then Some(i)
    else SourceFrom(pins, imageOff, i + 1)
  }

  predicate Sourced(l: HB.Layout, pins: seq<PinCfg>) { forall f <- l.fields :: SourceFrom(pins, f.imageOff, 0).Some? }

  /** The pin index the header's table gives a field. */
  function Source(l: HB.Layout, pins: seq<PinCfg>, k: nat): (i: nat)
    requires k < |l.fields| && Sourced(l, pins)
    ensures i < |pins| && pins[i].dir == Output && pins[i].byteOffset == l.fields[k].imageOff
  {
    SourceFrom(pins, l.fields[k].imageOff, 0).value
  }

  /** The HAL values of the streamed pins, cast to 32 bits. */
  function Streamed(l: HB.Layout, pins: seq<PinCfg>, values: seq<int>): (vals: seq<dword>)
    requires |values| == |pins| && Sourced(l, pins)
    ensures |vals| == |l.fields|
  {
    seq(|l.fields|, k requires 0 <= k < |l.fields| => values[Source(l, pins, k)] % WRAP)
  }

  // ---- Laying bytes inside a frame ----

  lemma SpliceInside(pre: seq<byte>, mid: seq<byte>, post: seq<byte>, at: nat, d: seq<byte>)
    requires at + |d| <= |mid|
    ensures Splice(pre + mid + post, |pre| + at, d) == pre + Splice(mid, at, d) + post
  {
    var l, r := Splice(pre + mid + post, |pre| + at, d), pre + Splice(mid, at, d) + post;
    forall i | 0 <= i < |l|
      ensures l[i] == r[i]
    {
    }
  }

  lemma LeFour(v: dword)
    ensures Le(v, 4) == Le32(v)
  {
    var a, b := v / 0x100, v / 0x1_0000;
    assert a / 0x100 == b && b / 0x100 == v / 0x100_0000;
    assert Le(b / 0x100, 1) == [(b / 0x100) % 0x100] + Le(b / 0x1_0000, 0);
    assert Le(b, 2) == [b % 0x100, (b / 0x100) % 0x100];
    assert Le(a, 3) == [a % 0x100] + Le(b, 2);
    assert Le(v, 4) == [v % 0x100, a % 0x100, b % 0x100, (b / 0x100) % 0x100];
    assert v % 0x1_0000 == v % 0x100 + 0x100 * (a % 0x100);
  }

  class Component {
    const l: HB.Layout
    /** The pin table, by image offset; the header holds it by frame offset. */
    const pins: seq<PinCfg>
    const lead: int
    var seqNo: word
    var wdog: word
    var nextTag: dword
    var primed: bool
    var depth: byte
    var cycle: dword
    var crcErrors: dword

    ghost predicate Valid() {
      StreamSized(l) && Sourced(l, pins) && Pi.TableOk(pins, l.outBytes)
    }

    ghost function Stands(): Sender
      reads this
    {
      Sender(nextTag, primed, depth, cycle)
    }

    constructor (l: HB.Layout, pins: seq<PinCfg>, lead: int)
      requires StreamSized(l) && Sourced(l, pins) && Pi.TableOk(pins, l.outBytes)
      ensures Valid() && this.l == l && this.pins == pins && this.lead == lead
      ensures Stands() == Sender(0, false, 0, 0) && seqNo == 0 && wdog == 0
    {
      this.l, this.pins, this.lead := l, pins, lead;
      seqNo, wdog, nextTag, primed, depth, cycle, crcErrors := 0, 0, 0, false, 0, 0, 0;
    }

    /** One tagged sample over a zeroed slot. */
    method PutSample(frame: array<byte>, off: nat, tag: dword, vals: seq<dword>, ghost pre: seq<byte>,
        ghost post: seq<byte>)
      requires Valid() && |vals| == |l.fields|
      requires |pre| == off && frame[..] == pre + Zeros(l.Stride()) + post
      modifies frame
      ensures frame[..] == pre + (Le32(tag) + Setpoint(l, vals)) + post
    {
      hide Splice, Payload, Le, Le32, Pi.TableOk;
      Pi.PutLe(frame, off, tag, 4);
      LeFour(tag);
      ghost var head := pre + Le32(tag);
      PutHead(pre, l.sampleBytes, post, Le32(tag));
      PayloadNone(l, vals);
      for k := 0 to |l.fields|
        invariant frame[..] == head + Payload(l, vals, k) + post
      {
        var f := l.fields[k];
        assert f in l.fields;
        PayloadStep(l, vals, k);
        SpliceInside(head, Payload(l, vals, k), post, f.sampleOff, Le(vals[k], f.len));
        Pi.PutLe(frame, off + 4 + f.sampleOff, vals[k], f.len);
      }
      assert head + Payload(l, vals, |vals|) + post == pre + (Le32(tag) + Setpoint(l, vals)) + post;
    }

    /** `build_motion`: the stream block of the frame, over zeros. */
    method BuildMotion(frame: array<byte>, vals: seq<dword>, ghost pre: seq<byte>, ghost post: seq<byte>)
      requires Valid() && |vals| == |l.fields|
      requires |pre| == l.StreamOff() && frame[..] == pre + Zeros(Pi.StreamLen(l)) + post
      modifies this`nextTag, this`primed, frame
      ensures frame[..] == pre + Stream(l, old(Stands()), lead, vals) + post
      ensures Stands() == AfterSend(l, old(Stands()), lead)
    {
      hide Payload, Setpoint, Le32, Splice, Sourced, Pi.TableOk, Want, Samples, Times;
      if l.fields == [] {
        frame[l.StreamOff()] := 0;
        assert frame[..] == pre + Zeros(Pi.StreamLen(l)) + post;
        return;
      }
      if nextTag < NextCycle(cycle) {
        nextTag := NextCycle(cycle);
      }
      var want := HowMany();
      WantIgnoresTag(old(Stands()), nextTag, lead, l.maxSamples);
      primed := true;
      frame[l.StreamOff()] := want;
      ghost var first := nextTag;
      BlockStart(pre, want, Times(l.maxSamples, l.Stride()), post);
      PutSamples(frame, want, vals, pre, post);
      assert pre + [want] + Samples(first, want,
        Setpoint(l, vals)) + Zeros(Times(l.maxSamples - want, l.Stride())) + post
          == pre + ([want] + Samples(first, want,
            Setpoint(l, vals)) + Zeros(Times(l.maxSamples - want, l.Stride()))) + post;
    }

    /** The batch itself, slot after slot. */
    method PutSamples(frame: array<byte>, want: nat, vals: seq<dword>, ghost pre: seq<byte>, ghost post: seq<byte>)
      requires Valid() && |vals| == |l.fields| && want <= l.maxSamples
      requires |pre| == l.StreamOff() && frame[..] == pre + [want] + Zeros(Times(l.maxSamples, l.Stride())) + post
      modifies this`nextTag, frame
      ensures frame[..] == pre + [want] + Samples(old(nextTag), want, Setpoint(l, vals))
        + Zeros(Times(l.maxSamples - want, l.Stride())) + post
      ensures nextTag == Tag(old(nextTag), want)
    {
      hide Setpoint, Le32, Sourced, Pi.TableOk, Samples, Times, Tag;
      ghost var stride, cap, sample, first := l.Stride(), l.maxSamples, Setpoint(l, vals), nextTag;
      var off := l.StreamOff() + HB.STREAM_HDR;
      NoSamples(first, sample, stride);
      assert pre + [want] + [] == pre + [want];
      for j := 0 to want
        invariant off == l.StreamOff() + HB.STREAM_HDR + Times(j, stride) && nextTag == Tag(first, j)
        invariant frame[..] == pre + [want] + Samples(first, j, sample) + Zeros(Times(cap - j, stride)) + post
      {
        ghost var done, left := pre + [want] + Samples(first, j, sample), Times(cap - j - 1, stride);
        TimesStep(j, cap, stride);
        BlockRest(done, stride, left, post);
        PutSample(frame, off, nextTag, vals, done, Zeros(left) + post);
        TagStep(first, j);
        nextTag := (nextTag + 1) % WRAP;
        off := off + l.Stride();
        BlockDone(pre, want, first, j, sample, Zeros(left), post);
      }
    }

    /** The frame `update` sends: header, outputs, stream, checksum, in place. */
    method Update(frame: array<byte>, values: seq<int>, enable: bool, faultReset: bool, quickStop: bool)
      requires Valid() && |values| == |pins| && frame.Length == l.FrameLen()
      requires forall i :: 0 <= i < |pins| ==> Pi.HalValue(pins[i], values[i])
      modifies this`seqNo, this`wdog, this`nextTag, this`primed, frame
      ensures seqNo == (old(seqNo) + 1) % 0x1_0000 && wdog == (old(wdog) + 1) % 0x1_0000
      ensures Stands() == AfterSend(l, old(Stands()), lead)
      ensures frame[..]
        == Pi.MosiFrame(l, Pi.AllFramed(pins, l.outBytes), values,
          Pi.Command(enable, faultReset, quickStop, seqNo, wdog),
             Stream(l, old(Stands()), lead, Streamed(l, pins, values)))
           + Zeros(frame.Length - l.MosiLen())
    {
      hide Pi.SerializeAll, Pi.MosiHeader, HB.Crc16Word, Pi.OutputsOk, Stream, AfterSend, Streamed, StreamSized,
        Sourced;
      seqNo, wdog := (seqNo + 1) % 0x1_0000, (wdog + 1) % 0x1_0000;
      var c := Pi.Command(enable, faultReset, quickStop, seqNo, wdog);
      var framed, n := Pi.AllFramed(pins, l.outBytes), Pi.StreamLen(l);
      ghost var base, rest := Pi.MosiHeader(c) + Zeros(l.outBytes), Zeros(frame.Length - HB.MOSI_HDR - l.outBytes);
      Pi.FramedOutputsOk(pins, l.outBytes, |base|);
      Pi.StartFrame(frame, l, c);
      Pi.SerializeOutputs(frame, base, rest, framed, values);
      ghost var s, stream := Pi.SerializeAll(base, framed, values),
        Stream(l, Stands(), lead, Streamed(l, pins, values));
      ghost var tail := Zeros(frame.Length - l.StreamOff() - n);
      assert s + rest == s + Zeros(n) + tail;
      BuildMotion(frame, Streamed(l, pins, values), s, tail);
      Pi.Seal(frame, l, s + stream, tail);
      assert tail[HB.CRC_LEN..] == Zeros(frame.Length - l.MosiLen());
    }

    /** The receiving half: a sound reply says how deep the ring is and which cycle it is. */
    method Hear(miso: array<byte>) returns (online: bool)
      requires miso.Length >= l.MisoLen()
      modifies this`depth, this`cycle, this`crcErrors
      ensures online == Pi.ReplyOk(l, miso[..])
      ensures Stands() == if online then old(Stands()).(depth := miso[16], cycle := Pi.StatusOf(miso[..]).cycleIndex)
        else old(Stands())
      ensures crcErrors == if online then old(crcErrors) else HB.Bump(old(crcErrors))
    {
      var n := l.MisoLen() - HB.CRC_LEN;
      var crc := Crc.ComputeCrc16(miso[..n]);
      assert miso[..][..n] == miso[..n];
      if FromLe16(miso[0], miso[1]) != HB.MAGIC || crc as int != FromLe16(miso[n], miso[n + 1]) {
        crcErrors := HB.Bump(crcErrors);
        return false;
      }
      assert miso[..][8..12] == miso[8..12];
      cycle := FromLe32(miso[8..12]);
      depth := miso[16];
      return true;
    }

    /** The size of this frame's batch. */
    method HowMany() returns (want: nat)
      requires l.maxSamples > 0
      ensures want == Want(Stands(), lead, l.maxSamples)
    {
      var target := if lead > 0 then lead else 1;
      if !primed {
        want := target;
      } else if depth < target {
        want := target - depth + 1;
      } else {
        want := 1;
      }
      if want > l.maxSamples {
        want := l.maxSamples;
      }
    }
  }

  lemma WantIgnoresTag(s: Sender, tag: dword, lead: int, cap: nat)
    requires cap > 0
    ensures Want(s.(nextTag := tag), lead, cap) == Want(s, lead, cap)
  {
  }

  lemma NoSamples(first: dword, sample: seq<byte>, stride: nat)
    ensures Samples(first, 0, sample) == [] && Times(0, stride) == 0 && Tag(first, 0) == first
  {
  }

  lemma TimesStep(j: nat, cap: nat, stride: nat)
    requires j < cap
    ensures Times(j + 1, stride) == Times(j, stride) + stride
    ensures Times(cap - j, stride) == Times(cap - j - 1, stride) + stride
  {
  }

  lemma PayloadNone(l: HB.Layout, vals: seq<dword>)
    requires |l.fields| == |vals| && FieldsFit(l)
    ensures Payload(l, vals, 0) == Zeros(l.sampleBytes)
  {
  }

  lemma PayloadStep(l: HB.Layout, vals: seq<dword>, k: nat)
    requires k < |l.fields| == |vals| && FieldsFit(l)
    ensures Payload(l, vals, k + 1) == Splice(Payload(l, vals, k), l.fields[k].sampleOff, Le(vals[k], l.fields[k].len))
  {
  }

  /** The tag over the first four bytes of an empty slot. */
  lemma PutHead(pre: seq<byte>, n: nat, post: seq<byte>, d: seq<byte>)
    requires |d| == 4
    ensures Splice(pre + Zeros(4 + n) + post, |pre|, d) == pre + d + Zeros(n) + post
  {
  }

  lemma BlockStart(pre: seq<byte>, want: byte, n: nat, post: seq<byte>)
    ensures (pre + Zeros(1 + n) + post)[|pre| := want] == pre + [want] + [] + Zeros(n) + post
  {
  }

  lemma BlockRest(done: seq<byte>, stride: nat, n: nat, post: seq<byte>)
    ensures done + Zeros(n + stride) + post == done + Zeros(stride) + (Zeros(n) + post)
  {
  }

  lemma TagStep(first: dword, j: nat)
    ensures Tag(first, j + 1) == (Tag(first, j) + 1) % WRAP
  {
  }

  lemma BlockDone(pre: seq<byte>, want: byte, first: dword, j: nat, sample: seq<byte>, z: seq<byte>, post: seq<byte>)
    ensures pre + [want] + Samples(first, j, sample) + (Le32(Tag(first, j)) + sample) + (z + post)
         == pre + [want] + Samples(first, j + 1, sample) + z + post
  {
    hide Le32, Tag;
  }
}
