/** The Pi's side of the host bridge (linuxcnc/teensy_ecat_bridge.c) on the frame contract of
    scripts/generate_ethercat_config.py:406-422, 513-523, and the proof that it and the
    firmware (`HostBridge`) undo each other. */
module PiBridge {
  import opened Bytes
  import opened Config
  import opened ProcessData
  import HB = HostBridge
  import Crc
  import Motion = MotionBuffer

  // ---- The contract ----

  /** A pin as the Pi sees it: the same pin, at its place in the frame. */
  function Framed(p: PinCfg, outBytes: nat): PinCfg
    requires p.dir == Input ==> outBytes <= p.byteOffset
  {
    p.(byteOffset := if p.dir == Output then HB.MOSI_HDR + p.byteOffset else HB.MISO_HDR + (p.byteOffset - outBytes))
  }

  /** What a HAL pin of this type can hold. */
  predicate HalValue(p: PinCfg, v: int) {
    match p.halType
    case Bit => v == 0 || v == 1
    case U32 => 0 <= v < 0x1_0000_0000
    case S32 => -0x8000_0000 <= v < 0x8000_0000
  }

  // ---- Little-endian helpers ----

  method PutLe(buf: array<byte>, off: nat, v: dword, n: nat)
    requires off + n <= buf.Length
    modifies buf
    ensures buf[..] == Splice(old(buf[..]), off, Le(v, n))
  {
    ghost var was, d := buf[..], Le(v, n);
    var rest: nat := v;
    for i := 0 to n
      invariant d[i..] == Le(rest, n - i)
      invariant forall k :: 0 <= k < buf.Length ==> buf[k] == if off <= k < off + i then d[k - off] else was[k]
    {
      assert d[i] == d[i..][0] && d[i + 1..] == d[i..][1..];
      buf[off + i], rest := rest % 0x100, rest / 0x100;
    }
  }

  method GetLe(buf: seq<byte>, off: nat, n: nat) returns (v: nat)
    requires off + n <= |buf|
    ensures v == FromLe(buf[off..off + n])
  {
    hide FromLe, Pow256;
    assert buf[off..off + 0] == [];
    FromLeEmpty();
    v := 0;
    var weight: nat := 1;
    for i := 0 to n
      invariant v == FromLe(buf[off..off + i]) && weight == Pow256(i)
    {
      assert buf[off..off + i + 1] == buf[off..off + i] + [buf[off + i]];
      GetStep(buf[off..off + i], buf[off + i], v, weight);
      v := v + buf[off + i] * weight;
      weight := 256 * weight;
    }
  }

  lemma FromLeEmpty()
    ensures FromLe([]) == 0 && Pow256(0) == 1
  {
  }

  lemma GetStep(s: seq<byte>, b: byte, v: nat, weight: nat)
    requires v == FromLe(s) && weight == Pow256(|s|)
    ensures FromLe(s + [b]) == v + b * weight && Pow256(|s| + 1) == 256 * weight
  {
    FromLeSnoc(s, b);
  }

  // ---- Outputs ----

  /** The frame after serialising one pin: the firmware's own write, at the pin's place in
      the frame. */
  method SerializeOut(frame: array<byte>, p: PinCfg, value: int)
    requires Placed(p, frame.Length) && p.bitLen <= 32 && HalValue(p, value)
    modifies frame
    ensures frame[..] == Write(old(frame[..]), p, value)
  {
    ghost var was := frame[..];
    if p.halType == Bit {
      frame[p.byteOffset] := SetBit(frame[p.byteOffset], p.bitPos, value != 0);
    } else {
      var v: dword := value % 0x1_0000_0000;
      var n := (p.bitLen + 7) / 8;
      PutLe(frame, p.byteOffset, v, n);
      LowBytes(value, n);
      assert frame[..] == Overlay(was, p.byteOffset, Le(v, n));
    }
  }

  /** Up to four bytes, casting to 32 bits first changes nothing. */
  lemma LowBytes(value: int, n: nat)
    requires n <= 4
    ensures Le(value % 0x1_0000_0000, n) == Le(value % 0x1_0000_0000_0000_0000, n)
  {
    var p := Pow256(n);
    PowSplit(n, 4 - n);
    PowSplit(n, 8 - n);
    Pow256Eight();
    assert Pow256(4) == 0x1_0000_0000 by {
      assert Pow256(1) == 0x100 && Pow256(2) == 0x1_0000 && Pow256(3) == 0x100_0000;
    }
    ModOfMod(value, p, Pow256(4 - n));
    ModOfMod(value, p, Pow256(8 - n));
    LeTruncates(value % 0x1_0000_0000, n);
    LeTruncates(value % 0x1_0000_0000_0000_0000, n);
  }

  function SerializeAll(frame: seq<byte>, pins: seq<PinCfg>, values: seq<int>): (r: seq<byte>)
    requires |values| == |pins|
    ensures |r| == |frame|
  {
    if pins == [] then frame
    else
      var n := |pins| - 1;
      var f := SerializeAll(frame, pins[..n], values[..n]);
      if pins[n].dir == Output then Write(f, pins[n], values[n]) else f
  }

  /** Output pins fit in `n` bytes and share no bit. */
  ghost predicate OutputsOk(pins: seq<PinCfg>, n: nat) {
    && (forall p <- pins :: p.dir == Output ==> Placed(p, n) && p.bitLen <= 32)
    && (forall i, k :: 0 <= i < k < |pins| && pins[i].dir == Output && pins[k].dir == Output ==>
      Apart(pins[i], pins[k]))
  }

  lemma OutputsOkInit(pins: seq<PinCfg>, n: nat, m: nat)
    requires OutputsOk(pins, n) && m <= |pins|
    ensures OutputsOk(pins[..m], n)
  {
    assert forall p <- pins[..m] :: p in pins;
  }

  /** Whatever the order, each output pin ends up holding its own value. */
  lemma {:induction false} AllSerialized(frame: seq<byte>, pins: seq<PinCfg>, values: seq<int>, i: nat)
    requires |values| == |pins| && OutputsOk(pins, |frame|) && i < |pins| && pins[i].dir == Output
    ensures Read(SerializeAll(frame, pins, values), pins[i]) == Canon(pins[i], values[i])
  {
    hide Read, Write, Canon, Placed, Apart;
    var n := |pins| - 1;
    var f := SerializeAll(frame, pins[..n], values[..n]);
    assert pins[n] in pins && pins[i] in pins;
    if i == n {
      ReadAfterWrite(f, pins[n], values[n]);
    } else {
      OutputsOkInit(pins, |frame|, n);
      AllSerialized(frame, pins[..n], values[..n], i);
      if pins[n].dir == Output {
        ApartSymmetric(pins[i], pins[n]);
        WriteKeepsOthers(f, pins[n], pins[i], values[n]);
      }
    }
  }

  lemma ApartSymmetric(p: PinCfg, q: PinCfg)
    ensures Apart(p, q) <==> Apart(q, p)
  {
  }

  // ---- The frame the Pi sends ----

  datatype Command = Command(enable: bool, faultReset: bool, quickStop: bool, seqNo: word, wdog: word)

  function Flags(c: Command): byte {
    (if c.enable then 1 else 0) + (if c.faultReset then 2 else 0) + (if c.quickStop then 4 else 0)
  }

  function MosiHeader(c: Command): (s: seq<byte>)
    ensures |s| == HB.MOSI_HDR
  {
    Le16(HB.MAGIC) + [HB.VERSION, Flags(c)] + Le16(c.seqNo) + Le16(c.wdog)
  }

  /** Bytes of the stream block. */
  function StreamLen(l: HB.Layout): nat { HB.STREAM_HDR + Times(l.maxSamples, l.Stride()) }

  /** The frame up to its checksum; `stream` is what the motion builder leaves in its block. */
  function Covered(l: HB.Layout, pins: seq<PinCfg>, values: seq<int>, c: Command, stream: seq<byte>): (s: seq<byte>)
    requires |values| == |pins| && |stream| == StreamLen(l)
    ensures |s| == l.MosiLen() - HB.CRC_LEN
  {
    SerializeAll(MosiHeader(c) + Zeros(l.outBytes), pins, values) + stream
  }

  function MosiFrame(l: HB.Layout, pins: seq<PinCfg>, values: seq<int>, c: Command, stream: seq<byte>): (s: seq<byte>)
    requires |values| == |pins| && |stream| == StreamLen(l)
    ensures |s| == l.MosiLen()
  {
    var s := Covered(l, pins, values, c, stream);
    s + Le16(HB.Crc16Word(s))
  }

  /** The pins as the Pi holds them. */
  function AllFramed(pins: seq<PinCfg>, outBytes: nat): (r: seq<PinCfg>)
    requires forall p <- pins :: p.dir == Input ==> outBytes <= p.byteOffset
    ensures |r| == |pins|
  {
    seq(|pins|, i requires 0 <= i < |pins| => Framed(pins[i], outBytes))
  }

  /** A pin table the generator emits: outputs in the first `outBytes`, inputs past them, no
      two outputs sharing a bit. */
  ghost predicate TableOk(pins: seq<PinCfg>, outBytes: nat) {
    && OutputsOk(pins, outBytes)
    && (forall p <- pins :: p.dir == Input ==> outBytes <= p.byteOffset)
  }

  lemma FramedOutputsOk(pins: seq<PinCfg>, outBytes: nat, n: nat)
    requires TableOk(pins, outBytes) && HB.MOSI_HDR + outBytes <= n
    ensures OutputsOk(AllFramed(pins, outBytes), n)
  {
    var r := AllFramed(pins, outBytes);
    forall p | p in r && p.dir == Output
      ensures Placed(p, n) && p.bitLen <= 32
    {
      var i :| 0 <= i < |r| && r[i] == p;
      assert pins[i] in pins;
    }
  }

  lemma WritePast(image: seq<byte>, p: PinCfg, v: int, n: nat)
    requires n <= p.byteOffset && n <= |image|
    ensures Write(image, p, v)[..n] == image[..n]
  {
  }

  /** Serialising outputs leaves the header alone. */
  lemma {:induction false} HeaderStays(frame: seq<byte>, pins: seq<PinCfg>, values: seq<int>)
    requires |values| == |pins| && HB.MOSI_HDR <= |frame|
    requires forall p <- pins :: p.dir == Output ==> HB.MOSI_HDR <= p.byteOffset
    ensures SerializeAll(frame, pins, values)[..HB.MOSI_HDR] == frame[..HB.MOSI_HDR]
  {
    if pins == [] {
    } else {
      var n := |pins| - 1;
      assert forall p <- pins[..n] :: p in pins;
      HeaderStays(frame, pins[..n], values[..n]);
      assert pins[n] in pins;
      var f := SerializeAll(frame, pins[..n], values[..n]);
      if pins[n].dir == Output {
        WritePast(f, pins[n], values[n], HB.MOSI_HDR);
      }
    }
  }

  /** The firmware accepts every frame the Pi builds, and takes from it the Pi's flags,
      counters and outputs. */
  lemma FirmwareAccepts(l: HB.Layout, h: HB.Host, pins: seq<PinCfg>, values: seq<int>, c: Command, stream: seq<byte>)
    requires |values| == |pins| && |stream| == StreamLen(l) && TableOk(pins, l.outBytes)
    ensures var f := MosiFrame(l, AllFramed(pins, l.outBytes), values, c, stream);
      var h' := HB.Ingest(l, h, f);
      && HB.Accepts(l, f)
      && h'.flags == Flags(c) && h'.hostSeq == c.seqNo && h'.hostWdog == c.wdog && h'.outValid
      && h'.stagedOut == Covered(l, AllFramed(pins, l.outBytes), values, c,
        stream)[HB.MOSI_HDR..HB.MOSI_HDR + l.outBytes]
  {
    var framed := AllFramed(pins, l.outBytes);
    var base := MosiHeader(c) + Zeros(l.outBytes);
    forall p | p in framed && p.dir == Output
      ensures HB.MOSI_HDR <= p.byteOffset
    {
      var i :| 0 <= i < |framed| && framed[i] == p;
    }
    HeaderStays(base, framed, values);
    var s := Covered(l, framed, values, c, stream);
    assert s[..HB.MOSI_HDR] == MosiHeader(c) by {
      assert s[..HB.MOSI_HDR] == SerializeAll(base, framed, values)[..HB.MOSI_HDR];
    }
    hide Covered, SerializeAll, HB.PushSamples, HB.SampleCount, HB.Crc16Word;
    FrameParts(l, s, c);
  }

  /** And each of the Pi's requests for just what it is. */
  lemma CommandsUnderstood(l: HB.Layout, h: HB.Host, pins: seq<PinCfg>, values: seq<int>, c: Command,
      stream: seq<byte>)
    requires |values| == |pins| && |stream| == StreamLen(l) && TableOk(pins, l.outBytes)
    ensures var h' := HB.Ingest(l, h, MosiFrame(l, AllFramed(pins, l.outBytes), values, c, stream));
      && (HB.EnableRequested(h') <==> c.enable) && (HB.FaultResetRequested(h') <==> c.faultReset)
      && (HB.QuickStopRequested(h') <==> c.quickStop)
  {
    hide HB.Ingest, HB.Accepts, MosiFrame, AllFramed, Covered;
    FirmwareAccepts(l, h, pins, values, c, stream);
  }

  /** A sealed frame whose first bytes are the header. */
  lemma FrameParts(l: HB.Layout, s: seq<byte>, c: Command)
    requires |s| == l.MosiLen() - HB.CRC_LEN && s[..HB.MOSI_HDR] == MosiHeader(c)
    ensures var f := s + Le16(HB.Crc16Word(s));
      && HB.Accepts(l, f) && f[0] == 0xEC && f[1] == 0xA7 && f[2] == 1 && f[3] == Flags(c)
        && FromLe16(f[4], f[5]) == c.seqNo && FromLe16(f[6], f[7]) == c.wdog
      && f[HB.MOSI_HDR..HB.MOSI_HDR + l.outBytes] == s[HB.MOSI_HDR..HB.MOSI_HDR + l.outBytes]
  {
    hide HB.Crc16Word;
    var f := s + Le16(HB.Crc16Word(s));
    assert f[..l.MosiLen() - HB.CRC_LEN] == s;
    var m := MosiHeader(c);
    assert m[0] == 0xEC && m[1] == 0xA7;
    assert forall k :: 0 <= k < HB.MOSI_HDR ==> f[k] == s[..HB.MOSI_HDR][k];
  }

  /** The same pin read at two places whose bytes agree. */
  lemma ReadShifted(x: seq<byte>, y: seq<byte>, off: nat, n: nat, p: PinCfg)
    requires off + n <= |y| && n <= |x| && x[..n] == y[off..off + n] && Placed(p, n)
    ensures Read(x, p) == Read(y, p.(byteOffset := off + p.byteOffset))
  {
    var q := p.(byteOffset := off + p.byteOffset);
    forall j | 0 <= j < n
      ensures x[j] == y[off + j]
    {
      assert x[j] == x[..n][j] && y[off + j] == y[off..off + n][j];
    }
    if p.halType != Bit {
      assert Window(x, p.byteOffset, BytesOf(p)) == Window(y, q.byteOffset, BytesOf(q));
    }
  }

  /** Round trip of the outputs: what LinuxCNC sets on a pin is what the drives' image holds
      there, cut to the pin's width, whenever no motion sample overlays it. */
  lemma OutputsRoundTrip(l: HB.Layout, h: HB.Host, pins: seq<PinCfg>, values: seq<int>, c: Command, stream: seq<byte>,
      image: seq<byte>, cycle: dword, i: nat)
    requires |values| == |pins| && |stream| == StreamLen(l) && TableOk(pins, l.outBytes)
    requires l.outBytes <= |image| && i < |pins| && pins[i].dir == Output
    requires var h' := HB.Ingest(l, h, MosiFrame(l, AllFramed(pins, l.outBytes), values, c, stream));
      !l.Streaming() || Motion.Pop(h'.motion, cycle).1 == None
    ensures var h' := HB.Ingest(l, h, MosiFrame(l, AllFramed(pins, l.outBytes), values, c, stream));
      |h'.stagedOut| == l.outBytes && Read(HB.OutputImage(l, h', image, cycle), pins[i]) == Canon(pins[i], values[i])
  {
    hide Covered, HB.Ingest, MosiFrame, Read, Canon, Motion.Pop, SerializeAll, AllFramed;
    var h' := HB.Ingest(l, h, MosiFrame(l, AllFramed(pins, l.outBytes), values, c, stream));
    FirmwareAccepts(l, h, pins, values, c, stream);
    SentOutputs(l, pins, values, c, stream, i, h'.stagedOut);
    assert pins[i] in pins;
    assert HB.OutputImage(l, h', image, cycle) == HB.Immediate(l, h', image);
    var im := HB.Immediate(l, h', image);
    assert im[..l.outBytes] == h'.stagedOut[0..0 + l.outBytes];
    ReadShifted(im, h'.stagedOut, 0, l.outBytes, pins[i]);
    assert pins[i].(byteOffset := 0 + pins[i].byteOffset) == pins[i];
  }

  /** The bytes staged by the firmware read back as the values serialised. */
  lemma SentOutputs(l: HB.Layout, pins: seq<PinCfg>, values: seq<int>, c: Command, stream: seq<byte>, i: nat,
      staged: seq<byte>)
    requires |values| == |pins| && |stream| == StreamLen(l) && TableOk(pins, l.outBytes) && i < |pins|
      && pins[i].dir == Output
    requires staged == Covered(l, AllFramed(pins, l.outBytes), values, c, stream)[HB.MOSI_HDR..HB.MOSI_HDR + l.outBytes]
    ensures Read(staged, pins[i]) == Canon(pins[i], values[i])
  {
    hide Read, Canon, SerializeAll, MosiHeader;
    var framed, base := AllFramed(pins, l.outBytes), MosiHeader(c) + Zeros(l.outBytes);
    FramedOutputsOk(pins, l.outBytes, |base|);
    AllSerialized(base, framed, values, i);
    var s := SerializeAll(base, framed, values);
    assert (s + stream)[HB.MOSI_HDR..HB.MOSI_HDR + l.outBytes] == s[HB.MOSI_HDR..HB.MOSI_HDR + l.outBytes];
    assert pins[i] in pins;
    assert staged[..l.outBytes] == staged;
    ReadShifted(staged, s, HB.MOSI_HDR, l.outBytes, pins[i]);
    SameCanon(pins[i], framed[i], values[i]);
  }

  lemma SameCanon(p: PinCfg, q: PinCfg, v: int)
    requires p.halType == q.halType && p.bitLen == q.bitLen
    ensures Canon(p, v) == Canon(q, v)
  {
  }

  lemma WritePrefix(a: seq<byte>, b: seq<byte>, p: PinCfg, v: int)
    requires Placed(p, |a|)
    ensures Write(a + b, p, v) == Write(a, p, v) + b
  {
  }

  /** Outputs placed in the first part of a frame leave the rest alone. */
  lemma {:induction false} SerializePrefix(a: seq<byte>, b: seq<byte>, pins: seq<PinCfg>, values: seq<int>)
    requires |values| == |pins| && OutputsOk(pins, |a|)
    ensures SerializeAll(a + b, pins, values) == SerializeAll(a, pins, values) + b
  {
    if pins == [] {
    } else {
      hide Write, Placed, Apart;
      var n := |pins| - 1;
      OutputsOkInit(pins, |a|, n);
      SerializePrefix(a, b, pins[..n], values[..n]);
      assert pins[n] in pins;
      if pins[n].dir == Output {
        WritePrefix(SerializeAll(a, pins[..n], values[..n]), b, pins[n], values[n]);
      }
    }
  }

  /** The checksum over everything before it. */
  method Seal(frame: array<byte>, l: HB.Layout, ghost body: seq<byte>, ghost tail: seq<byte>)
    requires |body| == l.MosiLen() - HB.CRC_LEN && |tail| >= HB.CRC_LEN && frame[..] == body + tail
    modifies frame
    ensures frame[..] == body + Le16(HB.Crc16Word(body)) + tail[HB.CRC_LEN..]
  {
    hide HB.Crc16Word;
    var n := l.MosiLen() - HB.CRC_LEN;
    assert frame[..n] == body;
    var crc := Crc.ComputeCrc16(frame[..n]);
    CopyInto(frame, n, Le16(crc as int));
    SpliceTail(body, tail, n, Le16(crc as int));
    CrcIs(body);
  }

  lemma CrcIs(s: seq<byte>)
    ensures HB.Crc16Word(s) == Crc.Crc16(s) as int
  {
    hide Crc.Crc16;
  }

  /** `memset`, then the header. */
  method StartFrame(frame: array<byte>, l: HB.Layout, c: Command)
    requires frame.Length == l.FrameLen()
    modifies frame
    ensures frame[..] == MosiHeader(c) + Zeros(l.outBytes) + Zeros(frame.Length - HB.MOSI_HDR - l.outBytes)
  {
    CopyInto(frame, 0, Zeros(frame.Length));
    CopyInto(frame, 0, MosiHeader(c));
  }

  method SerializeOutputs(frame: array<byte>, ghost base: seq<byte>, ghost rest: seq<byte>, pins: seq<PinCfg>,
      values: seq<int>)
    requires |values| == |pins| && OutputsOk(pins, |base|) && forall i :: 0 <= i < |pins| ==>
      HalValue(pins[i], values[i])
    requires frame[..] == base + rest
    modifies frame
    ensures frame[..] == SerializeAll(base, pins, values) + rest
  {
    hide Write;
    SerializePrefix(base, rest, pins, values);
    for i := 0 to |pins|
      invariant frame[..] == SerializeAll(base + rest, pins[..i], values[..i])
    {
      assert pins[..i + 1][..i] == pins[..i] && values[..i + 1][..i] == values[..i];
      assert pins[i] in pins;
      if pins[i].dir == Output {
        SerializeOut(frame, pins[i], values[i]);
      }
    }
    assert pins[..|pins|] == pins && values[..|values|] == values;
  }

  // ---- Inputs ----

  /** `((int32_t)(raw << shift) >> shift)`, `up` being two to the shift: drop the high bits,
      shift back with the sign. */
  function ShiftBack(raw: nat, up: nat): int
    requires up > 0
  {
    var x := (raw * up) % 0x1_0000_0000;
    if x >= 0x8000_0000 then -((0x1_0000_0000 - x + up - 1) / up) else x / up
  }

  /** What `deserialize_in` puts on the HAL pin. */
  function Deserialized(frame: seq<byte>, p: PinCfg): int
    requires Placed(p, |frame|)
  {
    if p.halType == Bit then Read(frame, p)
    else
      var raw := FromLe(frame[p.byteOffset..p.byteOffset + BytesOf(p)]);
      if p.halType == U32 then raw
      else if 0 < 32 - p.bitLen < 32 then ShiftBack(raw, Pow2(32 - p.bitLen))
      else if raw >= 0x8000_0000 then raw - 0x1_0000_0000 else raw
  }

  method DeserializeIn(frame: seq<byte>, p: PinCfg) returns (v: int)
    requires Placed(p, |frame|) && p.bitLen <= 32
    ensures v == Deserialized(frame, p)
  {
    if p.halType == Bit {
      return if BitAt(frame[p.byteOffset], p.bitPos) then 1 else 0;
    }
    var raw: int;
    raw := GetLe(frame, p.byteOffset, (p.bitLen + 7) / 8);
    if p.halType == U32 {
      return raw;
    }
    var shift := 32 - p.bitLen;
    if 0 < shift < 32 {
      return ShiftBack(raw, Pow2(shift));
    }
    return if raw >= 0x8000_0000 then raw - 0x1_0000_0000 else raw;
  }

  lemma SmallPowers()
    ensures Pow2(8) == 0x100 && Pow2(16) == 0x1_0000 && Pow2(24) == 0x100_0000 && Pow2(32) == 0x1_0000_0000
  {
    assert Pow2(4) == 16;
    assert Pow2(12) == 0x1000 by { assert Pow2(8) == 256; }
    assert Pow2(20) == 0x10_0000 by { assert Pow2(16) == 0x1_0000; }
    assert Pow2(28) == 0x1000_0000 by { assert Pow2(24) == 0x100_0000; }
  }

  lemma ShiftBackIs(raw: nat, up: nat, size: nat)
    requires (up == 0x100 && size == 0x100_0000) || (up == 0x1_0000 && size == 0x1_0000)
      || (up == 0x100_0000 && size == 0x100)
    requires raw < size
    ensures ShiftBack(raw, up) == if 2 * raw >= size then raw - size else raw
  {
    if up == 0x100 {
      assert ShiftBack(raw, 0x100) == if 2 * raw >= 0x100_0000 then raw - 0x100_0000 else raw;
    } else if up == 0x1_0000 {
      assert ShiftBack(raw, 0x1_0000) == if 2 * raw >= 0x1_0000 then raw - 0x1_0000 else raw;
    } else {
      assert ShiftBack(raw, 0x100_0000) == if 2 * raw >= 0x100 then raw - 0x100 else raw;
    }
  }

  /** The C shifts are the firmware's sign extension. */
  lemma ShiftIsSignExtend(raw: nat, bits: nat)
    requires bits in {8, 16, 24} && raw < Pow2(bits)
    ensures ShiftBack(raw, Pow2(32 - bits)) == SignExtend(raw, bits)
  {
    hide Pow2, ShiftBack;
    SmallPowers();
    ShiftBackIs(raw, Pow2(32 - bits), Pow2(bits));
    SmallMod(raw, Pow2(bits));
  }

  lemma RawIsSmall(frame: seq<byte>, p: PinCfg)
    requires Placed(p, |frame|) && p.halType != Bit
    ensures Window(frame, p.byteOffset, BytesOf(p)) == frame[p.byteOffset..p.byteOffset + BytesOf(p)]
    ensures FromLe(frame[p.byteOffset..p.byteOffset + BytesOf(p)]) < Pow2(p.bitLen)
  {
    PowersAgree(BytesOf(p));
  }

  /** A pin reads the same by the Pi's rule and by the firmware's. */
  lemma DeserializedIsRead(frame: seq<byte>, p: PinCfg)
    requires Placed(p, |frame|) && p.bitLen <= 32
    ensures Deserialized(frame, p) == Read(frame, p)
  {
    hide Pow2, ShiftBack, FromLe, Window;
    if p.halType == Bit {
    } else {
      RawIsSmall(frame, p);
      SmallPowers();
      var raw := FromLe(frame[p.byteOffset..p.byteOffset + BytesOf(p)]);
      Pow2Monotone(p.bitLen, 64);
      if p.halType == U32 {
        SmallMod(raw, Pow2(64));
      } else if p.bitLen < 32 {
        ShiftIsSignExtend(raw, p.bitLen);
      } else {
        SmallMod(raw, Pow2(32));
      }
    }
  }

  // ---- The frame the Pi receives ----

  predicate ReplyOk(l: HB.Layout, miso: seq<byte>)
    requires |miso| >= l.MisoLen()
  {
    FromLe16(miso[0], miso[1]) == HB.MAGIC
    && HB.Crc16Word(miso[..l.MisoLen() - 2]) == FromLe16(miso[l.MisoLen() - 2], miso[l.MisoLen() - 1])
  }

  datatype Status = Status(link: bool, operational: bool, fault: bool, hostTimeout: bool,
    cycleIndex: dword, wkc: byte, expectedWkc: byte, phase: byte, depth: byte)

  function StatusOf(miso: seq<byte>): Status
    requires |miso| >= HB.MISO_HDR
  {
    var s := miso[3];
    Status(s % 2 == 1, (s / 2) % 2 == 1, (s / 4) % 2 == 1, (s / 8) % 2 == 1,
      FromLe32(miso[8..12]), miso[12], miso[13], miso[14], miso[16])
  }

  lemma HeaderFields(h: HB.Host, wdog: word, st: HB.ReplyStatus)
    ensures var m := HB.ReplyHeader(h, wdog, st);
      && FromLe16(m[0], m[1]) == HB.MAGIC && m[3] == HB.StatusFlags(st) && FromLe32(m[8..12]) == st.cycleIndex
      && m[12] == st.wkc && m[13] == st.expectedWkc && m[14] == st.phase
      && m[16] == (if |h.motion.q| < 255 then |h.motion.q| else 255)
  {
    var m := HB.ReplyHeader(h, wdog, st);
    assert m[8..12] == Le32(st.cycleIndex);
    Le32RoundTrip(st.cycleIndex);
  }

  /** Round trip of the inputs: the Pi accepts every reply the firmware stages, each input
      pin shows what the firmware reads there, and the status pins show the engine's. */
  lemma InputsRoundTrip(l: HB.Layout, h: HB.Host, wdog: word, image: seq<byte>, st: HB.ReplyStatus, p: PinCfg)
    requires p.dir == Input && l.outBytes <= p.byteOffset && Placed(p, l.outBytes + l.inBytes) && p.bitLen <= 32
    requires l.outBytes + l.inBytes <= |image|
    ensures var f := HB.ReplyFrame(l, h, wdog, image, st);
      && ReplyOk(l, f)
      && Deserialized(f, Framed(p, l.outBytes)) == Read(image, p)
      && StatusOf(f) == Status(st.linkUp, st.phase == 2, st.phase == 3, st.hostTimeout, st.cycleIndex, st.wkc,
        st.expectedWkc,
           st.phase, if |h.motion.q| < 255 then |h.motion.q| else 255)
  {
    hide HB.ReplyFrame, HB.ReplyHeader, HB.StatusFlags, Read, Deserialized, Window, StatusOf, ReplyOk;
    var f := HB.ReplyFrame(l, h, wdog, image, st);
    ReplyParts(l, h, wdog, image, st);
    ReplyStatusIs(l, h, wdog, image, st);
    var ins, q := image[l.outBytes..l.outBytes + l.inBytes], Framed(p, l.outBytes);
    var r := p.(byteOffset := p.byteOffset - l.outBytes);
    assert ins[..l.inBytes] == ins;
    ReadShifted(ins, image, l.outBytes, l.inBytes, r);
    ReadShifted(ins, f, HB.MISO_HDR, l.inBytes, r);
    assert r.(byteOffset := l.outBytes + r.byteOffset) == p && r.(byteOffset := HB.MISO_HDR + r.byteOffset) == q;
    DeserializedIsRead(f, q);
  }

  lemma ReplyParts(l: HB.Layout, h: HB.Host, wdog: word, image: seq<byte>, st: HB.ReplyStatus)
    requires l.outBytes + l.inBytes <= |image|
    ensures var f := HB.ReplyFrame(l, h, wdog, image, st);
      && ReplyOk(l, f)
      && f[..HB.MISO_HDR] == HB.ReplyHeader(h, wdog, st)
      && f[HB.MISO_HDR..HB.MISO_HDR + l.inBytes] == image[l.outBytes..l.outBytes + l.inBytes]
  {
    hide HB.Crc16Word;
    var f, hdr, ins := HB.ReplyFrame(l, h, wdog, image, st), HB.ReplyHeader(h, wdog, st), HB.Inputs(l, image);
    HeaderFields(h, wdog, st);
    hide HB.ReplyHeader;
    assert ins == image[l.outBytes..l.outBytes + l.inBytes];
    assert f[..l.MisoLen() - 2] == hdr + ins;
    assert f[0] == hdr[0] && f[1] == hdr[1];
  }

  lemma ReplyStatusIs(l: HB.Layout, h: HB.Host, wdog: word, image: seq<byte>, st: HB.ReplyStatus)
    requires l.outBytes + l.inBytes <= |image|
    ensures StatusOf(HB.ReplyFrame(l, h, wdog, image, st))
      == Status(st.linkUp, st.phase == 2, st.phase == 3, st.hostTimeout, st.cycleIndex, st.wkc, st.expectedWkc,
           st.phase, if |h.motion.q| < 255 then |h.motion.q| else 255)
  {
    hide HB.ReplyFrame, HB.ReplyHeader, ReplyOk, StatusOf;
    ReplyParts(l, h, wdog, image, st);
    HeaderFields(h, wdog, st);
    FlagsDecode(st);
    StatusFromHeader(HB.ReplyFrame(l, h, wdog, image, st), HB.ReplyHeader(h, wdog, st));
  }

  lemma FlagsDecode(st: HB.ReplyStatus)
    ensures var s := HB.StatusFlags(st);
      && (s % 2 == 1 <==> st.linkUp) && ((s / 2) % 2 == 1 <==> st.phase == 2)
      && ((s / 4) % 2 == 1 <==> st.phase == 3) && ((s / 8) % 2 == 1 <==> st.hostTimeout)
  {
  }

  lemma StatusFromHeader(f: seq<byte>, m: seq<byte>)
    requires |m| == HB.MISO_HDR <= |f| && f[..HB.MISO_HDR] == m
    ensures StatusOf(f) == Status(m[3] % 2 == 1, (m[3] / 2) % 2 == 1, (m[3] / 4) % 2 == 1, (m[3] / 8) % 2 == 1,
      FromLe32(m[8..12]), m[12], m[13], m[14], m[16])
  {
    assert f[8..12] == f[..HB.MISO_HDR][8..12];
    assert f[3] == m[3] && f[12] == m[12] && f[13] == m[13] && f[14] == m[14] && f[16] == m[16];
  }
}
