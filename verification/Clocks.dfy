/** The arithmetic of distributed clocks (src/ethercat/dc.rs:230-240, 381-449). */
module Clocks {
  import opened Bytes
  import opened Config
  import opened Datagram
  import opened Ecrt

  const START_MARGIN: nat := 100_000_000
  const MAX_DELAY: nat := 10_000

  // ---- Reading the combined replies ----

  function ReadPorts(data: seq<byte>): Outcome<seq<dword>> {
    if |data| < 16 then Err(FrameTooShort)
    else Ok([FromLe32(data[0..4]), FromLe32(data[4..8]), FromLe32(data[8..12]), FromLe32(data[12..16])])
  }

  function ReadU64(data: seq<byte>): (r: Outcome<qword>)
  {
    if |data| < 8 then Err(FrameTooShort) else Ok(U64(data[0..8]))
  }

  function U64(s: seq<byte>): qword
    requires |s| == 8
  {
    FromLe32(s[0..4]) + 0x1_0000_0000 * FromLe32(s[4..8])
  }

  function Le64(v: qword): (s: seq<byte>)
    ensures |s| == 8
  {
    Le32(v % 0x1_0000_0000) + Le32(v / 0x1_0000_0000)
  }

  lemma Le64RoundTrip(v: qword)
    ensures U64(Le64(v)) == v
  {
    Le32RoundTrip(v % 0x1_0000_0000);
    Le32RoundTrip(v / 0x1_0000_0000);
    assert Le64(v)[0..4] == Le32(v % 0x1_0000_0000) && Le64(v)[4..8] == Le32(v / 0x1_0000_0000);
  }

  /** Reference and follower port times, each read by exactly one slave. A frame without a
      second datagram is read again from its start, as the source does. */
  function ParsePortReads(frame: seq<byte>): Outcome<(seq<dword>, seq<dword>)> {
    match ParseAt(frame, FRAME_HEADER)
    case None => Err(FrameTooShort)
    case Some((d0, n1)) =>
      match ParseAt(frame, n1)
      case None => Err(FrameTooShort)
      case Some((d1, _)) =>
        if d0.wkc != 1 || d1.wkc != 1 then Err(WorkingCounter)
        else
          match ReadPorts(d0.data)
          case Err(e) => Err(e)
          case Ok(p0) =>
            match ReadPorts(d1.data)
            case Err(e) => Err(e)
            case Ok(p1) => Ok((p0, p1))
  }

  /** The clocks sampled in one frame: reference time, follower time, follower offset. */
  datatype Sample = Sample(ref: qword, fol: qword, off: qword)

  function ParseClockReads(frame: seq<byte>): Outcome<Sample> {
    match ParseAt(frame, FRAME_HEADER)
    case None => Err(FrameTooShort)
    case Some((d0, n1)) =>
      match ParseAt(frame, n1)
      case None => Err(FrameTooShort)
      case Some((d1, n2)) =>
        match ParseAt(frame, n2)
        case None => Err(FrameTooShort)
        case Some((d2, _)) =>
          if d0.wkc != 1 || d1.wkc != 1 || d2.wkc != 1 then Err(WorkingCounter)
          else
            match (ReadU64(d0.data), ReadU64(d1.data), ReadU64(d2.data))
            case (Ok(r), Ok(f), Ok(o)) => Ok(Sample(r, f, o))
            case _ => Err(FrameTooShort)
  }

  /** Four port times as a slave presents them. */
  function PortImage(p: seq<dword>): (s: seq<byte>)
    requires |p| == 4
    ensures |s| == 16
  {
    Le32(p[0]) + Le32(p[1]) + Le32(p[2]) + Le32(p[3])
  }

  lemma FourParts(a: seq<byte>, b: seq<byte>, c: seq<byte>, d: seq<byte>)
    requires |a| == |b| == |c| == |d| == 4
    ensures var s := a + b + c + d; s[0..4] == a && s[4..8] == b && s[8..12] == c && s[12..16] == d
  {
  }

  lemma PortsRead(p: seq<dword>)
    requires |p| == 4
    ensures ReadPorts(PortImage(p)) == Ok(p)
  {
    var s := PortImage(p);
    Le32RoundTrip(p[0]);
    Le32RoundTrip(p[1]);
    Le32RoundTrip(p[2]);
    Le32RoundTrip(p[3]);
    hide Le32, FromLe32;
    FourParts(Le32(p[0]), Le32(p[1]), Le32(p[2]), Le32(p[3]));
    assert p == [p[0], p[1], p[2], p[3]];
  }

  /** Two slaves' port times in one frame, the reference's first: taken exactly if each read
      was answered by one slave. */
  lemma PortReadsIff(a: Dgram, b: Dgram, p: seq<dword>, q: seq<dword>, trailer: seq<byte>)
    requires |p| == 4 && |q| == 4 && a.payload == PortImage(p) && b.payload == PortImage(q)
    ensures ParsePortReads(Frame([a, b]) + trailer)
      == if a.wkc == 1 && b.wkc == 1 then Ok((p, q)) else Err(WorkingCounter)
  {
    hide PortImage, ReadPorts, Frame, ParseAt, Offset, Region;
    PortsRead(p);
    PortsRead(q);
    assert FRAME_HEADER == Offset([a, b], 0) by {
      FirstAt([a, b]);
    }
    ParseInFrame([a, b], trailer, 0);
    ParseInFrame([a, b], trailer, 1);
  }

  lemma FirstAt(ds: seq<Dgram>)
    ensures Offset(ds, 0) == FRAME_HEADER
  {
    assert ds[..0] == [];
  }

  lemma TimeRead(v: qword)
    ensures ReadU64(Le64(v)) == Ok(v)
  {
    Le64RoundTrip(v);
    assert Le64(v)[0..8] == Le64(v);
  }

  /** The clocks in one frame: the reference's time, the follower's, the follower's offset. */
  lemma ClockReadsIff(a: Dgram, b: Dgram, c: Dgram, s: Sample, trailer: seq<byte>)
    requires a.payload == Le64(s.ref) && b.payload == Le64(s.fol) && c.payload == Le64(s.off)
    ensures ParseClockReads(Frame([a, b, c]) + trailer)
      == if a.wkc == 1 && b.wkc == 1 && c.wkc == 1 then Ok(s) else Err(WorkingCounter)
  {
    hide Le64, ReadU64, Frame, ParseAt, Offset, Region;
    TimeRead(s.ref);
    TimeRead(s.fol);
    TimeRead(s.off);
    FirstAt([a, b, c]);
    ParseInFrame([a, b, c], trailer, 0);
    ParseInFrame([a, b, c], trailer, 1);
    ParseInFrame([a, b, c], trailer, 2);
  }

  /** The single system-time read of the reference path: zero if the reply is short. */
  function NowOf(data: seq<byte>): qword { if |data| >= 8 then U64(data[0..8]) else 0 }

  /** The slave has answered such a read itself. */
  predicate OwnTime(r: Reply) { r.wkc == 1 && |r.data| >= 8 }

  /** What such a read comes back as while the slave's clock reads `t`: answered; as it was
      sent, where no slave answered; or cut short. */
  predicate CameBack(r: Reply, t: qword) {
    (r.wkc == 1 && r.data == Le64(t)) || (r.wkc == 0 && r.data == Zeros(8)) || |r.data| < 8
  }

  /** The source looks at neither the working counter nor the length: the time it goes on with
      is the slave's own exactly if the slave answered in full, or its clock happens to read
      zero. */
  lemma NowIsOwnIff(r: Reply, t: qword)
    requires CameBack(r, t)
    ensures NowOf(r.data) == t <==> OwnTime(r) || t == 0
  {
    Le64RoundTrip(t);
    if r.data == Le64(t) {
      assert r.data[0..8] == r.data;
    } else if r.data == Zeros(8) {
      NoTimeIsZero();
    }
  }

  lemma NoTimeIsZero()
    ensures NowOf(Zeros(8)) == 0
  {
  }

  // ---- What is computed from them ----

  function Diff32(a: dword, b: dword): dword { (a - b) % 0x1_0000_0000 }

  /** Division toward zero. */
  function Half(v: int): int { if v >= 0 then v / 2 else -((-v) / 2) }

  function PropagationDelay(refPorts: seq<dword>, folPorts: seq<dword>): (d: dword)
    requires |refPorts| == 4 && |folPorts| == 4
    ensures d <= MAX_DELAY
  {
    var oneWay := Half(Diff32(refPorts[1], refPorts[0]) - Diff32(folPorts[1], folPorts[0]));
    if 0 <= oneWay <= MAX_DELAY then oneWay else 0
  }

  /** `old_off.wrapping_add(ref_sys.wrapping_sub(fol_sys))`. */
  function NewOffset(s: Sample): qword { (s.off + (s.ref - s.fol) % WRAP64) % WRAP64 }

  function Cycle(cfg: DcCfg): (c: nat)
    ensures c > 0
  {
    if cfg.sync0Cycle < 1 then 1 else cfg.sync0Cycle
  }

  function Boundary(t: nat, c: nat): nat
    requires c > 0
  {
    (t / c + 1) * c
  }

  /** The next cycle boundary past `now` plus the margin, plus the shift; 64-bit. */
  function CyclicStart(cfg: DcCfg, now: qword): qword {
    (Boundary((now + START_MARGIN) % WRAP64, Cycle(cfg)) + cfg.sync0Shift) % WRAP64
  }

  // ---- Alignment ----

  /** A slave's system time: its local clock plus the offset register. */
  function SystemTime(local: qword, off: qword): qword { (local + off) % WRAP64 }

  lemma ModAdd(a: int, b: int, m: nat)
    requires m > 0
    ensures (a + b % m) % m == (a + b) % m
  {
    var q := b / m;
    assert b == m * q + b % m;
    ModShift(a + b % m, q, m);
    assert (a + b % m) + m * q == a + b;
  }

  lemma ModShift(a: int, q: int, m: nat)
    requires m > 0
    ensures (a + m * q) % m == a % m
  {
    var k, r := a / m, a % m;
    assert a + m * q == m * (k + q) + r by {
      assert m * (k + q) == m * k + m * q;
    }
    EuclidUnique(a + m * q, m, k + q, r);
  }

  /** The new offset makes the follower read the reference's time at the sampled instant. */
  lemma OffsetAligns(s: Sample, local: qword)
    requires s.fol == SystemTime(local, s.off)
    ensures SystemTime(local, NewOffset(s)) == s.ref
  {
    var d := s.ref - s.fol;
    ModAdd(s.off, d, WRAP64);
    Shifted(local, s.off, d, NewOffset(s));
    assert d + s.fol == s.ref && s.ref % WRAP64 == s.ref;
  }

  /** Moving the offset by `d` moves the system time by `d`. */
  lemma Shifted(local: qword, off: qword, d: int, off': qword)
    requires off' == (off + d) % WRAP64
    ensures SystemTime(local, off') == (d + SystemTime(local, off)) % WRAP64
  {
    ModAdd(local, off + d, WRAP64);
    ModAdd(d, local + off, WRAP64);
    assert local + (off + d) == d + (local + off);
  }

  /** A second run leaves the offset alone, and only an aligned follower is left alone. */
  lemma OffsetIsFixedIff(s: Sample)
    ensures NewOffset(s) == s.off <==> s.fol == s.ref
  {
    ModAdd(s.off, s.ref - s.fol, WRAP64);
    if s.fol != s.ref {
      var d := s.ref - s.fol;
      if s.off + d < 0 {
        EuclidUnique(s.off + d, WRAP64, -1, s.off + d + WRAP64);
      } else if s.off + d >= WRAP64 {
        EuclidUnique(s.off + d, WRAP64, 1, s.off + d - WRAP64);
      } else {
        EuclidUnique(s.off + d, WRAP64, 0, s.off + d);
      }
    }
  }

  /** The next boundary past now plus the margin, plus the shift, is a 64-bit time. */
  predicate StartFits(cfg: DcCfg, now: qword) { Boundary(now + START_MARGIN, Cycle(cfg)) + cfg.sync0Shift < WRAP64 }

  lemma BoundaryBounds(t: nat, c: nat)
    requires c > 0
    ensures Boundary(t, c) % c == 0 && t < Boundary(t, c) <= t + c
  {
    var q := t / c;
    assert t == c * q + t % c;
    assert (q + 1) * c == c * (q + 1) == c * q + c;
    EuclidUnique(c * (q + 1), c, q + 1, 0);
  }

  lemma BoundaryLeast(t: nat, c: nat, k: nat)
    requires c > 0 && k * c > t
    ensures k * c >= Boundary(t, c)
  {
    var q := t / c;
    assert q * c <= t by {
      assert t == c * q + t % c && c * q == q * c;
    }
    if k <= q {
      TimesMonotone(k, q, c);
      assert false;
    }
    TimesMonotone(q + 1, k, c);
  }

  lemma TimesMonotone(a: nat, b: nat, c: nat)
    requires a <= b
    ensures a * c <= b * c
  {
    assert (b - a) * c >= 0 && (b - a) * c == b * c - a * c;
  }

  /** The start time is the least cycle boundary strictly beyond now plus the margin, plus
      the shift, exactly where that is a 64-bit time; elsewhere it lies in the past. */
  lemma StartIsNextBoundary(cfg: DcCfg, now: qword, k: nat)
    ensures var s := CyclicStart(cfg, now);
      var b := s - cfg.sync0Shift;
      if StartFits(cfg, now) then
        && b % Cycle(cfg) == 0 && now + START_MARGIN < b <= now + START_MARGIN + Cycle(cfg)
        && (k * Cycle(cfg) > now + START_MARGIN ==> k * Cycle(cfg) >= b)
      else s < now
  {
    hide CyclicStart, Boundary, Cycle, StartFits;
    var t, c := now + START_MARGIN, Cycle(cfg);
    BoundaryBounds(t, c);
    if StartFits(cfg, now) {
      StartInRange(cfg, now);
      if k * c > t {
        BoundaryLeast(t, c, k);
      }
    } else {
      BoundaryBounds(t % WRAP64, c);
      StartWraps(cfg, now, Boundary(t % WRAP64, c));
    }
  }

  lemma StartInRange(cfg: DcCfg, now: qword)
    requires StartFits(cfg, now)
    ensures CyclicStart(cfg, now) == Boundary(now + START_MARGIN, Cycle(cfg)) + cfg.sync0Shift
  {
    BoundaryBounds(now + START_MARGIN, Cycle(cfg));
    hide Boundary, Cycle;
  }

  /** What that means for the slave: once its clock is past the first nine seconds, its start
      lies ahead of it exactly if it answered the read. */
  lemma StartAheadIff(cfg: DcCfg, r: Reply, t: qword)
    requires CameBack(r, t) && StartFits(cfg, t) && t >= START_MARGIN + 0x2_0000_0000
    ensures t < CyclicStart(cfg, NowOf(r.data)) <==> OwnTime(r)
  {
    hide CyclicStart, Boundary, Cycle, StartFits, NowOf;
    NowIsOwnIff(r, t);
    if OwnTime(r) {
      StartIsNextBoundary(cfg, t, 0);
    } else {
      assert NowOf(r.data) == 0 by {
        Unanswered(r, t);
      }
      CycleIsDword(cfg);
      BoundaryBounds(START_MARGIN, Cycle(cfg));
      assert StartFits(cfg, 0) by {
        SmallFits(cfg);
      }
      StartInRange(cfg, 0);
    }
  }

  lemma Unanswered(r: Reply, t: qword)
    requires CameBack(r, t) && !OwnTime(r)
    ensures NowOf(r.data) == 0
  {
    NoTimeIsZero();
  }

  lemma SmallFits(cfg: DcCfg)
    ensures StartFits(cfg, 0)
  {
    BoundaryBounds(START_MARGIN, Cycle(cfg));
    hide Boundary;
  }

  lemma StartWraps(cfg: DcCfg, now: qword, b: nat)
    requires var t := now + START_MARGIN;
      b == Boundary(t % WRAP64, Cycle(cfg)) && t % WRAP64 < b <= t % WRAP64 + Cycle(cfg) && !StartFits(cfg, now)
    ensures CyclicStart(cfg, now) < now
  {
    var t := now + START_MARGIN;
    BoundaryBounds(t, Cycle(cfg));
    CycleIsDword(cfg);
    hide Boundary, Cycle;
    if t >= WRAP64 {
      assert t % WRAP64 == t - WRAP64;
    } else {
      assert t % WRAP64 == t;
      assert (b + cfg.sync0Shift) % WRAP64 == b + cfg.sync0Shift - WRAP64;
    }
  }

  lemma CycleIsDword(cfg: DcCfg)
    ensures Cycle(cfg) < 0x1_0000_0000
  {
  }

  /** The sum of boundary and shift does not fit 64 bits, and has lost its top bit. */
  predicate Overflows(cfg: DcCfg, now: qword) {
    Boundary((now + START_MARGIN) % WRAP64, Cycle(cfg)) + cfg.sync0Shift >= WRAP64
  }

  /** Whatever instants they were configured at, two slaves with the same cycle and shift fire
      on the same phase, unless just one of the two sums overflowed and the cycle does not
      divide 2^64. */
  lemma StartsAgreeIff(a: DcCfg, b: DcCfg, now: qword, later: qword)
    requires Cycle(a) == Cycle(b) && a.sync0Shift == b.sync0Shift
    ensures CyclicStart(a, now) % Cycle(a) == CyclicStart(b, later) % Cycle(b)
      <==> (Overflows(a, now) <==> Overflows(b, later)) || WRAP64 % Cycle(a) == 0
  {
    StartPhase(a, now);
    StartPhase(b, later);
    hide CyclicStart, Overflows, Cycle;
    LostBit(a.sync0Shift, Cycle(a));
  }

  lemma LostBit(x: int, c: nat)
    requires c > 0
    ensures (x - WRAP64) % c == x % c <==> WRAP64 % c == 0
  {
    var w := WRAP64 / c;
    assert WRAP64 == c * w + WRAP64 % c;
    if WRAP64 % c == 0 {
      ModShift(x - WRAP64, w, c);
    }
    if (x - WRAP64) % c == x % c {
      var p, q := x / c, (x - WRAP64) / c;
      assert WRAP64 == c * (p - q) by {
        assert x == c * p + x % c && x - WRAP64 == c * q + (x - WRAP64) % c && c * p - c * q == c * (p - q);
      }
      EuclidUnique(WRAP64, c, p - q, 0);
    }
  }

  lemma StartPhase(cfg: DcCfg, now: qword)
    ensures CyclicStart(cfg, now) % Cycle(cfg)
      == (cfg.sync0Shift - if Overflows(cfg, now) then WRAP64 else 0) % Cycle(cfg)
  {
    var t, c := (now + START_MARGIN) % WRAP64, Cycle(cfg);
    var lost := if Overflows(cfg, now) then WRAP64 else 0;
    BoundaryBounds(t, c);
    CycleIsDword(cfg);
    assert CyclicStart(cfg, now) == Boundary(t, c) + cfg.sync0Shift - lost by {
      hide Boundary, Cycle;
    }
    ModShift(cfg.sync0Shift - lost, t / c + 1, c);
    assert (t / c + 1) * c == c * (t / c + 1);
  }

  /** A symmetric line of plausible length is measured exactly: the reference's round trip is
      the follower's loopback plus the cable twice. */
  lemma DelayOfALine(refPorts: seq<dword>, folPorts: seq<dword>, cable: nat)
    requires |refPorts| == 4 && |folPorts| == 4
    requires Diff32(refPorts[1], refPorts[0]) == Diff32(folPorts[1], folPorts[0]) + 2 * cable
    ensures PropagationDelay(refPorts, folPorts) == cable <==> cable <= 10_000
  {
  }
}
