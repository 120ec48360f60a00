/** EtherCAT datagram encoding and decoding (src/ethercat/datagram.rs).

    `Frame(ds)` is the specification: the bytes of one EtherCAT frame carrying the
    datagrams `ds` (DLPDU structure of IEC 61158-4-12, section 5.4). `Build` and
    `Append` are the buffer-writing procedures, `Parse` and `ParseAt` the readers. */
module Datagram {
  import opened Bytes

  const FRAME_HEADER: nat := 2
  const DGRAM_HEADER: nat := 10
  const DGRAM_FOOTER: nat := 2
  const MIN_FRAME: nat := 46
  /** First value the 11-bit length fields cannot hold. */
  const LEN_LIMIT: nat := 0x800
  /** The "more datagrams follow" bit of a datagram's length word. */
  const MORE: word := 0x8000

  const APWR: byte := 0x02
  const FPRD: byte := 0x04
  const FPWR: byte := 0x05
  const BRD: byte := 0x07
  const BWR: byte := 0x08
  const LRW: byte := 0x0C
  const ARMW: byte := 0x0D

  /** One datagram as it travels; the master writes `wkc == 0`. */
  datatype Dgram = Dgram(cmd: byte, index: byte, adp: word, ado: word, payload: seq<byte>, wkc: word) {
    function Size(): nat { DGRAM_HEADER + |payload| + DGRAM_FOOTER }
  }

  datatype Reply = Reply(cmd: byte, index: byte, wkc: word, data: seq<byte>)

  function ReplyOf(d: Dgram): Reply { Reply(d.cmd, d.index, d.wkc, d.payload) }

  /** `0u16.wrapping_sub(ring_pos)`: the address a slave at `ringPos` sees as zero. */
  function AutoincAdp(ringPos: word): (adp: word)
    ensures (adp + ringPos) % 0x1_0000 == 0
  {
    (0x1_0000 - ringPos) % 0x1_0000
  }

  // ---- Specification ----

  function LenWord(plen: nat, more: bool): word {
    plen % LEN_LIMIT + if more then MORE else 0
  }

  function EncodeHeader(d: Dgram, more: bool): (s: seq<byte>)
    ensures |s| == DGRAM_HEADER
  {
    [d.cmd, d.index] + Le16(d.adp) + Le16(d.ado) + Le16(LenWord(|d.payload|, more)) + [0, 0]
  }

  function EncodeOne(d: Dgram, more: bool): (s: seq<byte>)
    ensures |s| == d.Size()
  {
    EncodeHeader(d, more) + d.payload + Le16(d.wkc)
  }

  /** Datagrams back to back, all but the last announcing a successor. */
  function EncodeAll(ds: seq<Dgram>): (s: seq<byte>)
    ensures |s| == Region(ds)
  {
    if ds == [] then [] else EncodeOne(ds[0], |ds| > 1) + EncodeAll(ds[1..])
  }

  function Region(ds: seq<Dgram>): nat {
    if ds == [] then 0 else ds[0].Size() + Region(ds[1..])
  }

  function FrameHeader(region: nat): (s: seq<byte>)
    ensures |s| == FRAME_HEADER
  {
    Le16(region % LEN_LIMIT + 0x1000)
  }

  function PadLen(n: nat): nat { if n < MIN_FRAME then MIN_FRAME - n else 0 }

  function FrameLen(region: nat): nat { FRAME_HEADER + region + PadLen(FRAME_HEADER + region) }

  function Frame(ds: seq<Dgram>): (s: seq<byte>)
    ensures |s| == FrameLen(Region(ds))
  {
    FrameHeader(Region(ds)) + EncodeAll(ds) + Zeros(PadLen(FRAME_HEADER + Region(ds)))
  }

  /** The offset of datagram `k` in the frame. */
  function Offset(ds: seq<Dgram>, k: nat): nat
    requires k <= |ds|
  {
    FRAME_HEADER + Region(ds[..k])
  }

  /** Every payload length fits the 11-bit length field. */
  predicate Fits(ds: seq<Dgram>) {
    forall d <- ds :: |d.payload| < LEN_LIMIT
  }

  lemma {:induction false} RegionConcat(a: seq<Dgram>, b: seq<Dgram>)
    ensures Region(a + b) == Region(a) + Region(b)
  {
    if a == [] {
      assert a + b == b;
    } else {
      assert (a + b)[1..] == a[1..] + b;
      RegionConcat(a[1..], b);
    }
  }

  lemma {:induction false} RegionSnoc(ds: seq<Dgram>, d: Dgram)
    ensures Region(ds + [d]) == Region(ds) + d.Size()
  {
    RegionConcat(ds, [d]);
    assert Region([d]) == d.Size();
  }

  // ---- Readers ----

  function ParseAt(frame: seq<byte>, off: nat): Option<(Reply, nat)> {
    if |frame| < off + DGRAM_HEADER + DGRAM_FOOTER then None
    else
      var lenWord := FromLe16(frame[off + 6], frame[off + 7]);
      var dataStart := off + DGRAM_HEADER;
      var wkcStart := dataStart + lenWord % LEN_LIMIT;
      if |frame| < wkcStart + DGRAM_FOOTER then None
      else
        var wkc := FromLe16(frame[wkcStart], frame[wkcStart + 1]);
        Some((Reply(frame[off], frame[off + 1], wkc, frame[dataStart..wkcStart]),
              if lenWord >= MORE then wkcStart + DGRAM_FOOTER else 0))
  }

  /** The single-datagram reader; the source repeats `parse_at` at a fixed offset. */
  function Parse(frame: seq<byte>): Option<Reply> {
    match ParseAt(frame, FRAME_HEADER)
    case None => None
    case Some((r, _)) => Some(r)
  }

  /** Everything a receiver sees by following `next` until it is 0. */
  function Walk(frame: seq<byte>, off: nat): seq<Reply>
    decreases |frame| - off
  {
    match ParseAt(frame, off)
    case None => []
    case Some((r, next)) => [r] + if next == 0 then [] else Walk(frame, next)
  }

  // ---- Round trip ----

  /** One encoded datagram parses back wherever it stands in a frame. */
  lemma ParseEncoded(a: seq<byte>, d: Dgram, more: bool, c: seq<byte>)
    requires |d.payload| < LEN_LIMIT
    ensures ParseAt(a + EncodeOne(d, more) + c, |a|)
         == Some((ReplyOf(d), if more then |a| + d.Size() else 0))
  {
    hide EncodeHeader, LenWord;
    var h, frame := EncodeHeader(d, more), a + EncodeOne(d, more) + c;
    HeaderBytes(d, more);
    LenBack(|d.payload|, more);
    Fields(a, h, d.payload, Le16(d.wkc), c);
    assert frame == a + (h + d.payload + Le16(d.wkc)) + c;
  }

  /** Locating header, payload and footer inside a frame. */
  lemma Fields(a: seq<byte>, h: seq<byte>, p: seq<byte>, w: seq<byte>, c: seq<byte>)
    requires |h| == DGRAM_HEADER && |w| == DGRAM_FOOTER
    ensures var frame := a + (h + p + w) + c;
      && (forall i {:trigger h[i]} :: 0 <= i < DGRAM_HEADER ==> frame[|a| + i] == h[i])
      && frame[|a| + DGRAM_HEADER..|a| + DGRAM_HEADER + |p|] == p
      && frame[|a| + DGRAM_HEADER + |p|] == w[0] && frame[|a| + DGRAM_HEADER + |p| + 1] == w[1]
  {
  }

  lemma LenBack(n: nat, more: bool)
    requires n < LEN_LIMIT
    ensures LenWord(n, more) % LEN_LIMIT == n && (LenWord(n, more) >= MORE <==> more)
  {
  }

  lemma HeaderBytes(d: Dgram, more: bool)
    ensures var h := EncodeHeader(d, more);
      h[0] == d.cmd && h[1] == d.index && FromLe16(h[6], h[7]) == LenWord(|d.payload|, more)
  {
    var w := LenWord(|d.payload|, more);
    var h := EncodeHeader(d, more);
    assert h[6] == w % 0x100 && h[7] == w / 0x100;
  }

  lemma {:induction false} EncodeAllSplit(ds: seq<Dgram>, k: nat) returns (pre: seq<byte>, post: seq<byte>)
    requires k < |ds|
    ensures |pre| == Region(ds[..k])
    ensures EncodeAll(ds) == pre + EncodeOne(ds[k], k + 1 < |ds|) + post
    ensures Region(ds[..k + 1]) == Region(ds[..k]) + ds[k].Size()
  {
    var rest := ds[1..];
    if k == 0 {
      pre, post := [], EncodeAll(rest);
      assert ds[..1] == [ds[0]] && Region([ds[0]]) == ds[0].Size();
    } else {
      pre, post := EncodeAllSplit(rest, k - 1);
      assert ds[..k][1..] == rest[..k - 1] && ds[..k + 1][1..] == rest[..k];
      Assoc(EncodeOne(ds[0], true), pre, EncodeOne(ds[k], k + 1 < |ds|), post);
      pre := EncodeOne(ds[0], true) + pre;
    }
  }

  /** Datagram `k` of a received frame that starts with `Frame(ds)`. */
  lemma ParseInFrame(ds: seq<Dgram>, trailer: seq<byte>, k: nat)
    requires k < |ds| && Fits(ds)
    ensures ParseAt(Frame(ds) + trailer, Offset(ds, k))
         == Some((ReplyOf(ds[k]), if k + 1 < |ds| then Offset(ds, k + 1) else 0))
  {
    hide EncodeAll, EncodeOne, FrameHeader, PadLen, Zeros, ParseAt, Region;
    var pre, post := EncodeAllSplit(ds, k);
    var e, hdr := EncodeOne(ds[k], k + 1 < |ds|), FrameHeader(Region(ds));
    var pad := Zeros(PadLen(FRAME_HEADER + Region(ds)));
    assert Frame(ds) + trailer == (hdr + pre) + e + (post + pad + trailer) by {
      Regroup(hdr, pre, e, post, pad, trailer);
    }
    assert |hdr + pre| == Offset(ds, k);
    ParseEncoded(hdr + pre, ds[k], k + 1 < |ds|, post + pad + trailer);
  }

  // ---- The slave's reader ----

  /** A datagram as a slave controller takes it off the wire. */
  datatype Seen = Seen(cmd: byte, index: byte, adp: word, ado: word, more: bool, irq: word, payload: seq<byte>,
    wkc: word)

  /** The length of eleven bits. */
  function Length11(lo: byte, hi: byte): nat { lo as nat + 0x100 * (hi as nat % 8) }

  /** Each field from its own bytes (IEC 61158-4-12, section 5.4): command, index, the two
      address words, the length word with its top bit, the interrupt word, then as many bytes
      of data as the length says, and the working counter. */
  function SlaveReads(f: seq<byte>, o: nat): Option<Seen> {
    if |f| < o + 12 then None
    else
      var len := Length11(f[o + 6], f[o + 7]);
      if |f| < o + 12 + len then None
      else
        Some(Seen(f[o], f[o + 1], FromLe16(f[o + 2], f[o + 3]), FromLe16(f[o + 4], f[o + 5]), f[o + 7] >= 0x80,
          FromLe16(f[o + 8], f[o + 9]), f[o + 10..o + 10 + len], FromLe16(f[o + 10 + len], f[o + 11 + len])))
  }

  lemma SlaveReadsHeader(d: Dgram, more: bool)
    requires |d.payload| < LEN_LIMIT
    ensures var h := EncodeHeader(d, more);
      && h[0] == d.cmd && h[1] == d.index && FromLe16(h[2], h[3]) == d.adp && FromLe16(h[4], h[5]) == d.ado
      && Length11(h[6], h[7]) == |d.payload| && (h[7] >= 0x80 <==> more) && h[8] == 0 && h[9] == 0
  {
    var n := |d.payload|;
    var w, h := LenWord(n, more), EncodeHeader(d, more);
    assert h[2] == d.adp % 0x100 && h[3] == d.adp / 0x100 && h[4] == d.ado % 0x100 && h[5] == d.ado / 0x100;
    assert h[6] == w % 0x100 && h[7] == w / 0x100;
    assert w == n + if more then 0x8000 else 0;
  }

  lemma SlaveReadsEncoded(a: seq<byte>, d: Dgram, more: bool, c: seq<byte>)
    requires |d.payload| < LEN_LIMIT
    ensures SlaveReads(a + EncodeOne(d, more) + c, |a|)
      == Some(Seen(d.cmd, d.index, d.adp, d.ado, more, 0, d.payload, d.wkc))
  {
    hide EncodeHeader, LenWord;
    var h, frame := EncodeHeader(d, more), a + EncodeOne(d, more) + c;
    SlaveReadsHeader(d, more);
    Fields(a, h, d.payload, Le16(d.wkc), c);
    assert frame == a + (h + d.payload + Le16(d.wkc)) + c;
    var o := |a|;
    assert frame[o] == h[0] && frame[o + 1] == h[1] && frame[o + 2] == h[2] && frame[o + 3] == h[3];
    assert frame[o + 4] == h[4] && frame[o + 5] == h[5] && frame[o + 6] == h[6] && frame[o + 7] == h[7];
    assert frame[o + 8] == h[8] && frame[o + 9] == h[9];
  }

  /** Every slave on the ring finds each datagram of a frame whole, addresses included, where
      the ones before it end; and the frame header announces EtherCAT datagrams of just their
      length. */
  lemma SlaveReadsFrame(ds: seq<Dgram>, trailer: seq<byte>, k: nat)
    requires k < |ds| && Fits(ds)
    ensures var d := ds[k];
      SlaveReads(Frame(ds) + trailer, Offset(ds, k))
      == Some(Seen(d.cmd, d.index, d.adp, d.ado, k + 1 < |ds|, 0, d.payload, d.wkc))
    ensures var f := Frame(ds) + trailer;
      |f| >= 2 && f[1] / 16 == 1 && Length11(f[0], f[1]) == Region(ds) % LEN_LIMIT
  {
    HeaderSeen(ds, trailer);
    hide EncodeAll, EncodeOne, FrameHeader, PadLen, Zeros, SlaveReads, Region;
    var pre, post := EncodeAllSplit(ds, k);
    var e, hdr := EncodeOne(ds[k], k + 1 < |ds|), FrameHeader(Region(ds));
    var pad := Zeros(PadLen(FRAME_HEADER + Region(ds)));
    assert Frame(ds) + trailer == (hdr + pre) + e + (post + pad + trailer) by {
      Regroup(hdr, pre, e, post, pad, trailer);
    }
    assert |hdr + pre| == Offset(ds, k);
    SlaveReadsEncoded(hdr + pre, ds[k], k + 1 < |ds|, post + pad + trailer);
  }

  lemma HeaderSeen(ds: seq<Dgram>, trailer: seq<byte>)
    ensures var f := Frame(ds) + trailer;
      |f| >= 2 && f[1] / 16 == 1 && Length11(f[0], f[1]) == Region(ds) % LEN_LIMIT
  {
    hide EncodeAll, Region, PadLen;
    var n, f := Region(ds) % LEN_LIMIT, Frame(ds) + trailer;
    assert f[0] == (n + 0x1000) % 0x100 && f[1] == (n + 0x1000) / 0x100;
  }

  function RepliesOf(ds: seq<Dgram>): (rs: seq<Reply>)
    ensures |rs| == |ds|
  {
    seq(|ds|, i requires 0 <= i < |ds| => ReplyOf(ds[i]))
  }

  /** Walking a frame yields exactly the datagrams it carries, from any of them on. */
  lemma {:induction false} WalkFrom(ds: seq<Dgram>, trailer: seq<byte>, k: nat)
    requires k < |ds| && Fits(ds)
    ensures Walk(Frame(ds) + trailer, Offset(ds, k)) == RepliesOf(ds)[k..]
    decreases |ds| - k
  {
    var frame := Frame(ds) + trailer;
    var next := if k + 1 < |ds| then Offset(ds, k + 1) else 0;
    assert ParseAt(frame, Offset(ds, k)) == Some((ReplyOf(ds[k]), next)) by {
      ParseInFrame(ds, trailer, k);
    }
    WalkStep(frame, Offset(ds, k));
    assert RepliesOf(ds)[k..] == [ReplyOf(ds[k])] + RepliesOf(ds)[k + 1..];
    if k + 1 < |ds| {
      WalkFrom(ds, trailer, k + 1);
    } else {
      assert RepliesOf(ds)[k + 1..] == [];
    }
  }

  lemma WalkStep(frame: seq<byte>, off: nat)
    requires ParseAt(frame, off).Some?
    ensures var (r, next) := ParseAt(frame, off).value;
      Walk(frame, off) == [r] + if next == 0 then [] else Walk(frame, next)
  {
  }

  /** The multi-datagram round trip, whatever bytes the receiver appends. */
  lemma WalkRoundTrip(ds: seq<Dgram>, trailer: seq<byte>)
    requires ds != [] && Fits(ds)
    ensures Walk(Frame(ds) + trailer, FRAME_HEADER) == RepliesOf(ds)
  {
    hide Walk, Frame;
    WalkFrom(ds, trailer, 0);
    assert RepliesOf(ds)[0..] == RepliesOf(ds);
    assert ds[..0] == [];
  }

  /** Where the length field stops being enough: a frame of one datagram reads back
      if and only if its payload is shorter than 2048 bytes. */
  lemma BuildReadsBackIff(d: Dgram)
    ensures Parse(Frame([d])) == Some(ReplyOf(d)) <==> |d.payload| < LEN_LIMIT
  {
    var f := Frame([d]);
    assert EncodeAll([d]) == EncodeOne(d, false) + [];
    if |d.payload| < LEN_LIMIT {
      ParseInFrame([d], [], 0);
      assert f + [] == f;
    } else {
      var e := EncodeOne(d, false);
      assert f[8] == e[6] && f[9] == e[7];
      assert e[6..8] == Le16(LenWord(|d.payload|, false));
      assert e[6] == e[6..8][0] && e[7] == e[6..8][1];
      assert FromLe16(f[8], f[9]) == |d.payload| % LEN_LIMIT;
      assert Parse(f).Some? ==> |Parse(f).value.data| < LEN_LIMIT;
    }
  }

  /** What appending does to the datagrams already in the frame: nothing but the
      "more" bit of the last one, the high bit of byte 7 of its header. */
  lemma {:induction false} AppendTouchesOnlyMore(ds: seq<Dgram>, d: Dgram, i: nat)
    requires ds != [] && i < Region(ds)
    ensures Region(ds[..|ds| - 1]) + 7 < Region(ds) <= Region(ds + [d])
    ensures EncodeAll(ds + [d])[i]
         == EncodeAll(ds)[i] + (if i == Region(ds[..|ds| - 1]) + 7 then 0x80 else 0) as int
    decreases |ds|
  {
    RegionSnoc(ds, d);
    assert (ds + [d])[1..] == ds[1..] + [d];
    var n := ds[0].Size();
    if |ds| == 1 {
      MoreBit(ds[0], i);
    } else {
      assert ds[..|ds| - 1][1..] == ds[1..][..|ds| - 2];
      if n <= i {
        AppendTouchesOnlyMore(ds[1..], d, i - n);
      } else {
        AppendTouchesOnlyMore(ds[1..], d, 0);
      }
    }
  }

  lemma MoreBit(d: Dgram, i: nat)
    requires i < d.Size()
    ensures EncodeOne(d, true)[i] == EncodeOne(d, false)[i] + if i == 7 then 0x80 else 0
  {
    var p := |d.payload|;
    assert LenWord(p, true) == LenWord(p, false) + 0x8000;
    assert Le16(LenWord(p, true)) == [Le16(LenWord(p, false))[0], Le16(LenWord(p, false))[1] + 0x80];
  }

  // ---- Writers ----

  /** Zero padding up to the Ethernet minimum. */
  method Pad(buf: array<byte>, from: nat) returns (total: nat)
    requires from <= buf.Length && MIN_FRAME <= buf.Length
    modifies buf
    ensures total == from + PadLen(from)
    ensures buf[..] == Splice(old(buf[..]), from, Zeros(PadLen(from)))
  {
    hide Splice, Zeros;
    total := from;
    NothingSpliced(buf[..], from);
    while total < MIN_FRAME
      invariant from <= total <= from + PadLen(from)
      invariant buf[..] == Splice(old(buf[..]), from, Zeros(total - from))
    {
      CopyInto(buf, total, [0]);
      SpliceAdjacent(old(buf[..]), from, Zeros(total - from), [0]);
      ZerosSnoc(total - from);
      total := total + 1;
    }
  }

  lemma NothingSpliced(s: seq<byte>, off: nat)
    requires off <= |s|
    ensures Splice(s, off, Zeros(0)) == s
  {
  }

  lemma ZerosSnoc(n: nat)
    ensures Zeros(n) + [0] == Zeros(n + 1)
  {
  }

  /** Header, payload and zero working counter of one datagram, written at `off`. */
  method WriteDgram(buf: array<byte>, off: nat, index: byte, cmd: byte, adp: word, ado: word, payload: seq<byte>)
    requires off + DGRAM_HEADER + |payload| + DGRAM_FOOTER <= buf.Length
    modifies buf
    ensures buf[..] == Splice(old(buf[..]), off, EncodeOne(Dgram(cmd, index, adp, ado, payload, 0), false))
  {
    ghost var was, d := buf[..], Dgram(cmd, index, adp, ado, payload, 0);
    CopyInto(buf, off, [cmd, index]);
    CopyInto(buf, off + 2, Le16(adp));
    SpliceAdjacent(was, off, [cmd, index], Le16(adp));
    CopyInto(buf, off + 4, Le16(ado));
    SpliceAdjacent(was, off, [cmd, index] + Le16(adp), Le16(ado));
    CopyInto(buf, off + 6, Le16(|payload| % LEN_LIMIT));
    SpliceAdjacent(was, off, [cmd, index] + Le16(adp) + Le16(ado), Le16(|payload| % LEN_LIMIT));
    CopyInto(buf, off + 8, Le16(0));
    SpliceAdjacent(was, off, [cmd, index] + Le16(adp) + Le16(ado) + Le16(|payload| % LEN_LIMIT), Le16(0));
    CopyInto(buf, off + DGRAM_HEADER, payload);
    SpliceAdjacent(was, off, EncodeHeader(d, false), payload);
    CopyInto(buf, off + DGRAM_HEADER + |payload|, Le16(0));
    SpliceAdjacent(was, off, EncodeHeader(d, false) + payload, Le16(0));
  }

  method Build(buf: array<byte>, index: byte, cmd: byte, adp: word, ado: word, payload: seq<byte>) returns (total: nat)
    requires MIN_FRAME <= buf.Length && FRAME_HEADER + DGRAM_HEADER + |payload| + DGRAM_FOOTER <= buf.Length
    modifies buf
    ensures var f := Frame([Dgram(cmd, index, adp, ado, payload, 0)]);
      total == |f| <= buf.Length && buf[..] == f + old(buf[..])[|f|..]
  {
    hide Frame, EncodeOne, FrameHeader, Zeros;
    ghost var was, d := buf[..], Dgram(cmd, index, adp, ado, payload, 0);
    var len := DGRAM_HEADER + |payload| + DGRAM_FOOTER;
    CopyInto(buf, 0, FrameHeader(len));
    WriteDgram(buf, FRAME_HEADER, index, cmd, adp, ado, payload);
    SpliceAdjacent(was, 0, FrameHeader(len), EncodeOne(d, false));
    total := Pad(buf, FRAME_HEADER + len);
    SpliceAdjacent(was, 0, FrameHeader(len) + EncodeOne(d, false), Zeros(PadLen(FRAME_HEADER + len)));
    FrameOne(d);
    assert buf[..] == Splice(was, 0, Frame([d]));
  }

  lemma FrameOne(d: Dgram)
    ensures Frame([d]) == FrameHeader(d.Size()) + EncodeOne(d, false) + Zeros(PadLen(FRAME_HEADER + d.Size()))
  {
    assert EncodeAll([d]) == EncodeOne(d, false) + [];
  }

  /** All of `ds`, every one announcing a successor. */
  ghost function EncodeMore(ds: seq<Dgram>): (s: seq<byte>)
    ensures |s| == Region(ds)
  {
    if ds == [] then [] else EncodeOne(ds[0], true) + EncodeMore(ds[1..])
  }

  lemma {:induction false} EncodeAllSnoc(ds: seq<Dgram>, d: Dgram)
    ensures EncodeAll(ds + [d]) == EncodeMore(ds) + EncodeOne(d, false)
  {
    if ds == [] {
      assert [] + [d] == [d];
      assert EncodeAll([d]) == EncodeOne(d, false) + [];
    } else {
      EncodeAllSnoc(ds[1..], d);
      assert (ds + [d])[1..] == ds[1..] + [d];
      assert EncodeOne(ds[0], true) + (EncodeMore(ds[1..]) + EncodeOne(d, false))
          == EncodeOne(ds[0], true) + EncodeMore(ds[1..]) + EncodeOne(d, false);
    }
  }

  lemma {:induction false} EncodeMoreSnoc(ds: seq<Dgram>, d: Dgram)
    ensures EncodeMore(ds + [d]) == EncodeMore(ds) + EncodeOne(d, true)
  {
    if ds == [] {
      assert [] + [d] == [d];
      assert EncodeMore([d]) == EncodeOne(d, true) + [];
    } else {
      EncodeMoreSnoc(ds[1..], d);
      assert (ds + [d])[1..] == ds[1..] + [d];
      assert EncodeOne(ds[0], true) + (EncodeMore(ds[1..]) + EncodeOne(d, true))
          == EncodeOne(ds[0], true) + EncodeMore(ds[1..]) + EncodeOne(d, true);
    }
  }

  /** Rewriting a datagram's length word is all it takes to set its "more" bit. */
  lemma SetMoreBit(a: seq<byte>, d: Dgram, c: seq<byte>)
    ensures Splice(a + EncodeOne(d, false) + c, |a| + 6, Le16(LenWord(|d.payload|, true))) == a + EncodeOne(d, true) + c
  {
    hide Le16, LenWord, Splice;
    var l, r := Le16(LenWord(|d.payload|, false)), Le16(LenWord(|d.payload|, true));
    var x, y := [d.cmd, d.index] + Le16(d.adp) + Le16(d.ado), [0, 0] + d.payload + Le16(d.wkc);
    assert EncodeOne(d, false) == x + l + y;
    assert EncodeOne(d, true) == x + r + y;
    SpliceTail(a + x, l + y + c, |a| + 6, r);
    assert a + (x + l + y) + c == (a + x) + (l + y + c);
  }

  lemma LenWordAt(ds: seq<Dgram>, rest: seq<byte>, k: nat)
    requires k < |ds| && Fits(ds)
    ensures Offset(ds, k) + DGRAM_HEADER <= |Frame(ds) + rest|
    ensures var f, o := Frame(ds) + rest, Offset(ds, k);
      FromLe16(f[o + 6], f[o + 7]) == LenWord(|ds[k].payload|, k + 1 < |ds|)
  {
    var pre, post := EncodeAllSplit(ds, k);
    var e, hdr := EncodeOne(ds[k], k + 1 < |ds|), FrameHeader(Region(ds));
    var pad := Zeros(PadLen(FRAME_HEADER + Region(ds)));
    assert Frame(ds) + rest == (hdr + pre) + e + (post + pad + rest) by {
      Regroup(hdr, pre, e, post, pad, rest);
    }
    HeaderBytes(ds[k], k + 1 < |ds|);
  }

  lemma MarkSplice(hdr: seq<byte>, pre: seq<byte>, d: Dgram, pad: seq<byte>, rest: seq<byte>)
    ensures var f, o := hdr + (pre + EncodeOne(d, false)) + pad + rest, |hdr| + |pre|;
      && Splice(f, o + 6, Le16(LenWord(|d.payload|, true))) == hdr + (pre + EncodeOne(d, true)) + (pad + rest)
      && f[o + d.Size()..] == pad + rest
  {
    var f := hdr + (pre + EncodeOne(d, false)) + pad + rest;
    assert f == (hdr + pre) + EncodeOne(d, false) + (pad + rest);
    SetMoreBit(hdr + pre, d, pad + rest);
    assert (hdr + pre) + EncodeOne(d, true) + (pad + rest) == hdr + (pre + EncodeOne(d, true)) + (pad + rest);
  }

  /** A frame of `ds` left open for a successor, then `t`. */
  ghost function Marked(ds: seq<Dgram>, t: seq<byte>): seq<byte> {
    FrameHeader(Region(ds)) + EncodeMore(ds) + t
  }

  /** The frame once its last datagram announces a successor. */
  lemma MarkedFrame(ds: seq<Dgram>, rest: seq<byte>, f: seq<byte>, o: nat, end: nat)
    requires ds != [] && f == Frame(ds) + rest && o == Offset(ds, |ds| - 1) && end == Offset(ds, |ds|)
    ensures o + 8 <= end <= |Frame(ds)|
    ensures Splice(f, o + 6, Le16(LenWord(|ds[|ds| - 1].payload|, true)))
         == Marked(ds, f[end..])
  {
    hide EncodeAll, EncodeOne, EncodeMore, FrameHeader, PadLen, Zeros, Region, Le16, LenWord, Splice;
    var n, hdr, pad := |ds| - 1, FrameHeader(Region(ds)), Zeros(PadLen(FRAME_HEADER + Region(ds)));
    assert ds == ds[..n] + [ds[n]] && ds[..|ds|] == ds;
    EncodeAllSnoc(ds[..n], ds[n]);
    EncodeMoreSnoc(ds[..n], ds[n]);
    RegionSnoc(ds[..n], ds[n]);
    MarkSplice(hdr, EncodeMore(ds[..n]), ds[n], pad, rest);
  }

  /** One step of the walk, as read from the bytes. */
  lemma WalkRead(ds: seq<Dgram>, rest: seq<byte>, f: seq<byte>, k: nat)
    requires k < |ds| && Fits(ds) && f == Frame(ds) + rest
    ensures Offset(ds, k) + DGRAM_HEADER <= |f|
    ensures var raw := FromLe16(f[Offset(ds, k) + 6], f[Offset(ds, k) + 7]);
      Offset(ds, k + 1) == Offset(ds, k) + DGRAM_HEADER + raw % LEN_LIMIT + DGRAM_FOOTER
    ensures Offset(ds, k + 1) >= Offset(ds, |ds|) <==> k + 1 == |ds|
  {
    hide Frame, Offset, LenWord, Region;
    LenWordAt(ds, rest, k);
    LenBack(|ds[k].payload|, k + 1 < |ds|);
    OffsetStep(ds, k);
  }

  /** `raw | 0x8000`. */
  function WithMore(raw: word): word { if raw >= MORE then raw else raw + MORE }

  lemma LastLenWord(ds: seq<Dgram>, rest: seq<byte>, f: seq<byte>, off: nat)
    requires ds != [] && Fits(ds) && f == Frame(ds) + rest && off == Offset(ds, |ds| - 1)
    ensures off + DGRAM_HEADER <= |f|
    ensures WithMore(FromLe16(f[off + 6], f[off + 7])) == LenWord(|ds[|ds| - 1].payload|, true)
  {
    LenWordAt(ds, rest, |ds| - 1);
  }

  /** The walk of `append`: the offset of the last datagram and the one just past it. */
  method FindLast(buf: array<byte>, ghost ds: seq<Dgram>, ghost rest: seq<byte>, regionEnd: nat)
    returns (off: nat, end: nat)
    requires ds != [] && Fits(ds) && buf[..] == Frame(ds) + rest && regionEnd == Offset(ds, |ds|)
    ensures off == Offset(ds, |ds| - 1) && end == regionEnd
  {
    off, end := FRAME_HEADER, 0;
    ghost var k := 0;
    while true
      invariant k < |ds| && off == Offset(ds, k)
      decreases |ds| - k
    {
      WalkRead(ds, rest, buf[..], k);
      var next := off + DGRAM_HEADER + FromLe16(buf[off + 6], buf[off + 7]) % LEN_LIMIT + DGRAM_FOOTER;
      if next >= regionEnd {
        return off, next;
      }
      off, k := next, k + 1;
    }
  }

  /** Set the "more" bit of the last datagram; returns the offset just past it. */
  method MarkLast(buf: array<byte>, ghost ds: seq<Dgram>, ghost rest: seq<byte>, regionEnd: nat) returns (end: nat)
    requires ds != [] && Fits(ds) && buf[..] == Frame(ds) + rest && regionEnd == Offset(ds, |ds|)
    modifies buf
    ensures end == regionEnd <= |Frame(ds)|
    ensures buf[..] == Marked(ds, old(buf[..])[regionEnd..])
  {
    hide Frame, Marked, LenWord, Region, Splice;
    ghost var was := buf[..];
    var off;
    off, end := FindLast(buf, ds, rest, regionEnd);
    assert buf[..] == was;
    LastLenWord(ds, rest, was, off);
    MarkedFrame(ds, rest, was, off, end);
    var raw := FromLe16(buf[off + 6], buf[off + 7]);
    CopyInto(buf, off + 6, Le16(WithMore(raw)));
  }

  /** Append a datagram to a frame holding `ds`. */
  method Append(buf: array<byte>, ghost ds: seq<Dgram>, index: byte, cmd: byte, adp: word, ado: word,
      payload: seq<byte>)
    returns (total: nat)
    requires ds != [] && Fits(ds) && Region(ds) < LEN_LIMIT && Frame(ds) <= buf[..]
    requires FRAME_HEADER + Region(ds) + DGRAM_HEADER + |payload| + DGRAM_FOOTER <= buf.Length
    modifies buf
    ensures var f := Frame(ds + [Dgram(cmd, index, adp, ado, payload, 0)]);
      total == |f| <= buf.Length && buf[..] == f + old(buf[..])[|f|..]
  {
    ghost var was, d := buf[..], Dgram(cmd, index, adp, ado, payload, 0);
    ghost var rest := was[|Frame(ds)|..];
    assert was == Frame(ds) + rest;
    var region := FromLe16(buf[0], buf[1]) % LEN_LIMIT;
    FrameRegion(ds, rest);
    assert ds[..|ds|] == ds;
    var off := MarkLast(buf, ds, rest, FRAME_HEADER + region);
    ghost var t := was[off..];
    WriteDgram(buf, off, index, cmd, adp, ado, payload);
    ghost var s2 := buf[..];
    var newRegion := region + DGRAM_HEADER + |payload| + DGRAM_FOOTER;
    CopyInto(buf, 0, FrameHeader(newRegion));
    ghost var s3 := buf[..];
    total := Pad(buf, FRAME_HEADER + newRegion);
    AppendedFrame(ds, d, t, s2, s3, buf[..], total);
    assert t[total - off..] == was[total..];
  }

  lemma FrameRegion(ds: seq<Dgram>, rest: seq<byte>)
    ensures var f := Frame(ds) + rest;
      FromLe16(f[0], f[1]) % LEN_LIMIT == Region(ds) % LEN_LIMIT
  {
  }

  /** The three writes of `Append`, `t` being what followed the old region. */
  lemma AppendedFrame(ds: seq<Dgram>, d: Dgram, t: seq<byte>, s2: seq<byte>, s3: seq<byte>, s4: seq<byte>, total: nat)
    requires d.wkc == 0 && d.Size() <= |t|
      && total == FrameLen(Region(ds) + d.Size()) <= FRAME_HEADER + Region(ds) + |t|
    requires s2 == Splice(Marked(ds, t), FRAME_HEADER + Region(ds), EncodeOne(d, false))
    requires s3 == Splice(s2, 0, FrameHeader(Region(ds) + d.Size()))
    requires var n := FRAME_HEADER + Region(ds) + d.Size(); s4 == Splice(s3, n, Zeros(PadLen(n)))
    ensures s4 == Frame(ds + [d]) + t[total - FRAME_HEADER - Region(ds)..]
    ensures |Frame(ds + [d])| == total
  {
    hide EncodeAll, EncodeOne, EncodeMore, FrameHeader, PadLen, Zeros, Region, Frame, Splice;
    var h, h', b, e := FrameHeader(Region(ds)), FrameHeader(Region(ds) + d.Size()), EncodeMore(ds), EncodeOne(d, false);
    var n := FRAME_HEADER + Region(ds) + d.Size();
    var z := Zeros(PadLen(n));
    ThreeWrites(h, b, t, e, h', z, s2, s3, s4);
    assert t[|e|..][|z|..] == t[total - FRAME_HEADER - Region(ds)..];
    FrameSnoc(ds, d);
    RegionSnoc(ds, d);
  }

  /** Over `h + b + t`: `e` after `b`, a new header `h'`, and `z` after `e`. */
  lemma ThreeWrites(h: seq<byte>, b: seq<byte>, t: seq<byte>, e: seq<byte>, h': seq<byte>, z: seq<byte>,
      s2: seq<byte>, s3: seq<byte>, s4: seq<byte>)
    requires |h| == |h'| && |e| + |z| <= |t|
    requires s2 == Splice(h + b + t, |h| + |b|, e)
    requires s3 == Splice(s2, 0, h')
    requires s4 == Splice(s3, |h| + |b| + |e|, z)
    ensures s4 == h' + b + e + z + t[|e|..][|z|..]
  {
    hide Splice;
    SpliceTail(h + b, t, |h| + |b|, e);
    HeadSplice(h, b, e, t[|e|..], h');
    SpliceTail(h' + b + e, t[|e|..], |h| + |b| + |e|, z);
  }

  lemma FrameSnoc(ds: seq<Dgram>, d: Dgram)
    ensures var n := Region(ds) + d.Size();
      Frame(ds + [d]) == FrameHeader(n) + EncodeMore(ds) + EncodeOne(d, false) + Zeros(PadLen(FRAME_HEADER + n))
  {
    hide EncodeAll, EncodeOne, EncodeMore, FrameHeader, PadLen, Zeros, Region;
    var n, b, e := Region(ds) + d.Size(), EncodeMore(ds), EncodeOne(d, false);
    assert Frame(ds + [d]) == FrameHeader(n) + (b + e) + Zeros(PadLen(FRAME_HEADER + n)) by {
      RegionSnoc(ds, d);
      EncodeAllSnoc(ds, d);
    }
    Assoc4(FrameHeader(n), b, e, Zeros(PadLen(FRAME_HEADER + n)));
  }

  lemma HeadSplice(h: seq<byte>, b: seq<byte>, e: seq<byte>, t: seq<byte>, h': seq<byte>)
    requires |h| == |h'|
    ensures Splice(h + b + e + t, 0, h') == h' + b + e + t
  {
    assert (h + b + e + t)[|h|..] == b + e + t;
  }

  lemma {:induction false} OffsetStep(ds: seq<Dgram>, k: nat)
    requires k < |ds|
    ensures Offset(ds, k + 1) == Offset(ds, k) + ds[k].Size()
    ensures Offset(ds, k + 1) <= Offset(ds, |ds|)
    ensures Offset(ds, k + 1) >= Offset(ds, |ds|) <==> k + 1 == |ds|
  {
    assert ds[..k + 1] == ds[..k] + [ds[k]];
    RegionSnoc(ds[..k], ds[k]);
    assert ds[..|ds|] == ds[..k + 1] + ds[k + 1..];
    RegionConcat(ds[..k + 1], ds[k + 1..]);
    if k + 1 < |ds| {
      assert Region(ds[k + 1..]) >= ds[k + 1..][0].Size() > 0;
    }
  }
}
