/** CRC-16/CCITT-FALSE as the host bridge and the Pi component both compute it
    (src/hal/host_bridge.rs, linuxcnc/teensy_ecat_bridge.c), and its burst detection.

    A message is read as its bits, most significant bit of each byte first. The checksum
    is affine in those bits, so two messages of one length collide exactly when their
    difference drives the zero register back to zero. */
module Crc {
  import opened Bytes

  const POLY: bv16 := 0x1021
  const INIT: bv16 := 0xFFFF

  // ---- The checksum ----

  function Xor(x: bv16, y: bv16): bv16 { x ^ y }

  predicate TopSet(x: bv16) { x & 0x8000 != 0 }

  /** One turn of the inner loop: shift out the top bit, fold the polynomial in if set. */
  function Shift(crc: bv16): bv16 {
    if TopSet(crc) then (crc << 1) ^ POLY else crc << 1
  }

  function Shifts(crc: bv16, n: nat): bv16
    decreases n
  {
    if n == 0 then crc else Shifts(Shift(crc), n - 1)
  }

  /** `(b as u16) << 8`. */
  function AtTop(b: byte): bv16 { ((b as bv8) as bv16) << 8 }

  /** The checksum of `data`, started at `crc`. */
  function Update(crc: bv16, data: seq<byte>): bv16
    decreases |data|
  {
    if data == [] then crc else Update(Shifts(Xor(crc, AtTop(data[0])), 8), data[1..])
  }

  function Crc16(data: seq<byte>): bv16 { Update(INIT, data) }

  method ComputeCrc16(data: seq<byte>) returns (crc: bv16)
    ensures crc == Crc16(data)
  {
    hide Xor;
    crc := INIT;
    var k := 0;
    while k < |data|
      invariant 0 <= k <= |data|
      invariant Update(crc, data[k..]) == Crc16(data)
    {
      ghost var rest := data[k..];
      assert rest[1..] == data[k + 1..];
      crc := Xor(crc, AtTop(data[k]));
      ghost var goal := Shifts(crc, 8);
      var i := 0;
      while i < 8
        invariant 0 <= i <= 8
        invariant Shifts(crc, 8 - i) == goal
      {
        crc := if TopSet(crc) then (crc << 1) ^ POLY else crc << 1;
        i := i + 1;
      }
      k := k + 1;
    }
  }

  // ---- Which checksum it is ----

  /** The register through the eight shifts of one byte. */
  lemma ByteFed(crc: bv16, data: seq<byte>, x: seq<bv16>)
    requires data != [] && |x| == 9 && Xor(crc, AtTop(data[0])) == x[0]
    requires forall i :: 0 <= i < 8 ==> Shift(x[i]) == x[i + 1]
    ensures Update(crc, data) == Update(x[8], data[1..])
  {
    hide Shift;
    ShiftsThrough(x, 0);
  }

  lemma {:induction false} ShiftsThrough(x: seq<bv16>, k: nat)
    requires |x| == 9 && k <= 8 && forall i :: 0 <= i < 8 ==> Shift(x[i]) == x[i + 1]
    ensures Shifts(x[k], 8 - k) == x[8]
    decreases 8 - k
  {
    hide Shift;
    if k < 8 {
      ShiftsThrough(x, k + 1);
    }
  }

  /** CRC-16/CCITT-FALSE is the one that makes 0x29B1 of the digits 1 to 9. */
  lemma CheckValue()
    ensures Crc16([0x31, 0x32, 0x33, 0x34, 0x35, 0x36, 0x37, 0x38, 0x39]) == 0x29B1
  {
    hide Update;
    var d: seq<byte> := [0x31, 0x32, 0x33, 0x34, 0x35, 0x36, 0x37, 0x38, 0x39];
    Digit1(d[0..]);
    Digit2(d[1..]);
    Digit3(d[2..]);
    Digit4(d[3..]);
    Digit5(d[4..]);
    Digit6(d[5..]);
    Digit7(d[6..]);
    Digit8(d[7..]);
    Digit9(d[8..]);
    NothingFed(0x29B1);
    assert d[0..] == d && d[9..] == [] && forall k :: 0 <= k < 9 ==> d[k..][1..] == d[k + 1..];
  }

  lemma Digit1(data: seq<byte>)
    requires data != [] && data[0] == 0x31
    ensures Update(0xFFFF, data) == Update(0xC782, data[1..])
  {
    ByteFed(0xFFFF, data, [0xCEFF, 0x8DDF, 0x0B9F, 0x173E, 0x2E7C, 0x5CF8, 0xB9F0, 0x63C1, 0xC782]);
  }

  lemma Digit2(data: seq<byte>)
    requires data != [] && data[0] == 0x32
    ensures Update(0xC782, data) == Update(0x3DBA, data[1..])
  {
    ByteFed(0xC782, data, [0xF582, 0xFB25, 0xE66B, 0xDCF7, 0xA9CF, 0x43BF, 0x877E, 0x1EDD, 0x3DBA]);
  }

  lemma Digit3(data: seq<byte>)
    requires data != [] && data[0] == 0x33
    ensures Update(0x3DBA, data) == Update(0x5BCE, data[1..])
  {
    ByteFed(0x3DBA, data, [0x0EBA, 0x1D74, 0x3AE8, 0x75D0, 0xEBA0, 0xC761, 0x9EE3, 0x2DE7, 0x5BCE]);
  }

  lemma Digit4(data: seq<byte>)
    requires data != [] && data[0] == 0x34
    ensures Update(0x5BCE, data) == Update(0x5349, data[1..])
  {
    ByteFed(0x5BCE, data, [0x6FCE, 0xDF9C, 0xAF19, 0x4E13, 0x9C26, 0x286D, 0x50DA, 0xA1B4, 0x5349]);
  }

  lemma Digit5(data: seq<byte>)
    requires data != [] && data[0] == 0x35
    ensures Update(0x5349, data) == Update(0x4560, data[1..])
  {
    ByteFed(0x5349, data, [0x6649, 0xCC92, 0x8905, 0x022B, 0x0456, 0x08AC, 0x1158, 0x22B0, 0x4560]);
  }

  lemma Digit6(data: seq<byte>)
    requires data != [] && data[0] == 0x36
    ensures Update(0x4560, data) == Update(0x2EF4, data[1..])
  {
    ByteFed(0x4560, data, [0x7360, 0xE6C0, 0xDDA1, 0xAB63, 0x46E7, 0x8DCE, 0x0BBD, 0x177A, 0x2EF4]);
  }

  lemma Digit7(data: seq<byte>)
    requires data != [] && data[0] == 0x37
    ensures Update(0x2EF4, data) == Update(0x7718, data[1..])
  {
    ByteFed(0x2EF4, data, [0x19F4, 0x33E8, 0x67D0, 0xCFA0, 0x8F61, 0x0EE3, 0x1DC6, 0x3B8C, 0x7718]);
  }

  lemma Digit8(data: seq<byte>)
    requires data != [] && data[0] == 0x38
    ensures Update(0x7718, data) == Update(0xA12B, data[1..])
  {
    ByteFed(0x7718, data, [0x4F18, 0x9E30, 0x2C41, 0x5882, 0xB104, 0x7229, 0xE452, 0xD885, 0xA12B]);
  }

  lemma Digit9(data: seq<byte>)
    requires data != [] && data[0] == 0x39
    ensures Update(0xA12B, data) == Update(0x29B1, data[1..])
  {
    ByteFed(0xA12B, data, [0x982B, 0x2077, 0x40EE, 0x81DC, 0x1399, 0x2732, 0x4E64, 0x9CC8, 0x29B1]);
  }

  lemma NothingFed(crc: bv16)
    ensures Update(crc, []) == crc
  {
  }

  // ---- The register as a vector space over bits ----

  /** A single bit enters at the top of the register. */
  function TopBit(b: bool): bv16 { if b then 0x8000 else 0 }

  function Half(p: bv16): bv16 { p >> 1 }

  predicate LowClear(p: bv16) { p & 1 == 0 }

  lemma XorCommutes(x: bv16, y: bv16)
    ensures Xor(x, y) == Xor(y, x)
  {
  }

  lemma XorAssociates(x: bv16, y: bv16, z: bv16)
    ensures Xor(x, Xor(y, z)) == Xor(Xor(x, y), z)
  {
  }

  lemma XorZero(x: bv16)
    ensures Xor(x, 0) == x && Xor(0, x) == x
  {
  }

  lemma XorIsZeroIff(x: bv16, y: bv16)
    ensures Xor(x, y) == 0 <==> x == y
  {
  }

  lemma XorRegroup(x: bv16, y: bv16, s: bv16, t: bv16)
    ensures Xor(Xor(x, s), Xor(y, t)) == Xor(Xor(x, y), Xor(s, t))
  {
    hide *;
    XorAssociates(Xor(x, s), y, t);
    XorAssociates(x, s, y);
    XorCommutes(s, y);
    XorAssociates(x, y, s);
    XorAssociates(Xor(x, y), s, t);
  }

  lemma TopBitXor(a: bool, b: bool)
    ensures Xor(TopBit(a), TopBit(b)) == TopBit(a != b)
    ensures TopBit(false) == 0
  {
  }

  lemma TopSetXor(x: bv16, y: bv16)
    ensures TopSet(Xor(x, y)) == (TopSet(x) != TopSet(y))
  {
  }

  lemma DoubleXor(x: bv16, y: bv16)
    ensures Xor(x, y) << 1 == (x << 1) ^ (y << 1)
    ensures Xor(x, y) << 1 == ((x << 1) ^ POLY) ^ ((y << 1) ^ POLY)
    ensures (Xor(x, y) << 1) ^ POLY == ((x << 1) ^ POLY) ^ (y << 1)
  {
  }

  lemma ShiftXorBoth(x: bv16, y: bv16)
    requires TopSet(x) && TopSet(y)
    ensures Shift(Xor(x, y)) == Xor(Shift(x), Shift(y))
  {
    TopSetXor(x, y);
    DoubleXor(x, y);
  }

  lemma ShiftXorNone(x: bv16, y: bv16)
    requires !TopSet(x) && !TopSet(y)
    ensures Shift(Xor(x, y)) == Xor(Shift(x), Shift(y))
  {
    TopSetXor(x, y);
    DoubleXor(x, y);
  }

  lemma ShiftXorOne(x: bv16, y: bv16)
    requires TopSet(x) && !TopSet(y)
    ensures Shift(Xor(x, y)) == Xor(Shift(x), Shift(y))
  {
    TopSetXor(x, y);
    DoubleXor(x, y);
  }

  lemma ShiftIsLinear(x: bv16, y: bv16)
    ensures Shift(Xor(x, y)) == Xor(Shift(x), Shift(y))
  {
    hide *;
    if TopSet(x) && TopSet(y) {
      ShiftXorBoth(x, y);
    } else if TopSet(x) {
      ShiftXorOne(x, y);
    } else if !TopSet(y) {
      ShiftXorNone(x, y);
    } else {
      ShiftXorOne(y, x);
      XorCommutes(x, y);
      XorCommutes(Shift(x), Shift(y));
    }
  }

  lemma ShiftKeepsNonzero(x: bv16)
    requires x != 0
    ensures Shift(x) != 0
  {
  }

  lemma ShiftOfZero()
    ensures Shift(0) == 0
  {
  }

  lemma ShiftOfHalf(p: bv16)
    requires LowClear(p)
    ensures Shift(Half(p)) == p
  {
    assert !TopSet(Half(p));
  }

  lemma TopDominates(p: bv16)
    ensures Xor(TopBit(true), Half(p)) != 0
  {
  }

  lemma HalfNonzero(p: bv16)
    requires p != 0 && LowClear(p)
    ensures Half(p) != 0
  {
  }

  lemma {:induction false} ShiftsAreLinear(x: bv16, y: bv16, n: nat)
    ensures Shifts(Xor(x, y), n) == Xor(Shifts(x, n), Shifts(y, n))
    decreases n
  {
    hide Xor, Shift;
    if n == 0 {
    } else {
      ShiftIsLinear(x, y);
      ShiftsAreLinear(Shift(x), Shift(y), n - 1);
    }
  }

  /** The register step loses nothing: no non-zero register ever drains to zero. */
  lemma {:induction false} ShiftsKeepNonzero(x: bv16, n: nat)
    requires x != 0
    ensures Shifts(x, n) != 0
    decreases n
  {
    hide Shift;
    if n == 0 {
    } else {
      ShiftKeepsNonzero(x);
      ShiftsKeepNonzero(Shift(x), n - 1);
    }
  }

  lemma {:induction false} ShiftsOfZero(n: nat)
    ensures Shifts(0, n) == 0
  {
    hide Shift;
    if n == 0 {
    } else {
      ShiftOfZero();
      ShiftsOfZero(n - 1);
    }
  }

  // ---- The bit-serial view ----

  function Feed(crc: bv16, bits: seq<bool>): bv16
    decreases |bits|
  {
    if bits == [] then crc else Feed(Shift(Xor(crc, TopBit(bits[0]))), bits[1..])
  }

  function BvBits(v: bv8): (s: seq<bool>)
    ensures |s| == 8
  {
    [v & 0x80 != 0, v & 0x40 != 0, v & 0x20 != 0, v & 0x10 != 0, v & 0x08 != 0, v & 0x04 != 0, v & 0x02 != 0,
      v & 0x01 != 0]
  }

  function ByteBits(b: byte): (s: seq<bool>)
    ensures |s| == 8
  {
    BvBits(b as bv8)
  }

  function Bits(data: seq<byte>): (s: seq<bool>)
    ensures |s| == 8 * |data|
  {
    if data == [] then [] else ByteBits(data[0]) + Bits(data[1..])
  }

  /** At most 16 bits, packed against the top of a register. */
  function Pack(bits: seq<bool>): bv16 {
    if bits == [] then 0 else Xor(TopBit(bits[0]), Half(Pack(bits[1..])))
  }

  /** The bits of a register below its top `n`. */
  function Below(n: nat): bv16 {
    if n == 0 then 0xFFFF else Half(Below(n - 1))
  }

  predicate Disjoint(p: bv16, m: bv16) { p & m == 0 }

  lemma HalveDisjoint(b: bool, p: bv16, m: bv16)
    requires Disjoint(p, m)
    ensures Disjoint(Xor(TopBit(b), Half(p)), Half(m))
  {
  }

  lemma {:induction false} PackLeavesBelowClear(bits: seq<bool>)
    ensures Disjoint(Pack(bits), Below(|bits|))
  {
    hide Xor, TopBit, Half, Disjoint;
    if bits == [] {
      NothingPacked();
    } else {
      PackLeavesBelowClear(bits[1..]);
      HalveDisjoint(bits[0], Pack(bits[1..]), Below(|bits| - 1));
    }
  }

  lemma NothingPacked()
    ensures Disjoint(0, 0xFFFF)
  {
  }

  lemma BelowHoldsLowBit(n: nat)
    requires n <= 15
    ensures Below(n) & 1 == 1
  {
    assert Below(1) == 0x7FFF && Below(2) == 0x3FFF && Below(3) == 0x1FFF;
    assert Below(4) == 0x0FFF && Below(5) == 0x07FF && Below(6) == 0x03FF && Below(7) == 0x01FF;
    assert Below(8) == 0x00FF && Below(9) == 0x007F && Below(10) == 0x003F && Below(11) == 0x001F;
    assert Below(12) == 0x000F && Below(13) == 0x0007 && Below(14) == 0x0003 && Below(15) == 0x0001;
  }

  lemma LowBitOf(p: bv16, m: bv16)
    requires Disjoint(p, m) && m & 1 == 1
    ensures LowClear(p)
  {
  }

  lemma PackLowClear(bits: seq<bool>)
    requires |bits| <= 15
    ensures LowClear(Pack(bits))
  {
    hide *;
    PackLeavesBelowClear(bits);
    BelowHoldsLowBit(|bits|);
    LowBitOf(Pack(bits), Below(|bits|));
  }

  /** Feeding at most 16 bits is loading them into the register and shifting. */
  lemma {:induction false} FeedIsShifts(crc: bv16, bits: seq<bool>)
    requires |bits| <= 16
    ensures Feed(crc, bits) == Shifts(Xor(crc, Pack(bits)), |bits|)
    decreases |bits|
  {
    hide Xor, Shift, TopBit, Half;
    if bits == [] {
      XorZero(crc);
    } else {
      var t, p := TopBit(bits[0]), Pack(bits[1..]);
      PackLowClear(bits[1..]);
      FeedIsShifts(Shift(Xor(crc, t)), bits[1..]);
      ShiftOfHalf(p);
      ShiftIsLinear(Xor(crc, t), Half(p));
      XorAssociates(crc, t, Half(p));
    }
  }

  lemma PackEight(s: seq<bool>)
    requires |s| == 8
    ensures Pack(s) == Xor(TopBit(s[0]), Half(Xor(TopBit(s[1]), Half(Xor(TopBit(s[2]), Half(Xor(TopBit(s[3]),
      Half(Xor(TopBit(s[4]), Half(Xor(TopBit(s[5]), Half(Xor(TopBit(s[6]), Half(Xor(TopBit(s[7]), Half(0))))))))))))))))
  {
    hide Xor, TopBit, Half;
    var s1, s2, s3, s4, s5, s6, s7 := s[1..], s[2..], s[3..], s[4..], s[5..], s[6..], s[7..];
    assert s1[1..] == s2 && s2[1..] == s3 && s3[1..] == s4 && s4[1..] == s5 && s5[1..] == s6 && s6[1..] == s7;
    assert s7[1..] == [];
    assert Pack(s7) == Xor(TopBit(s[7]), Half(0));
    assert Pack(s6) == Xor(TopBit(s[6]), Half(Pack(s7)));
    assert Pack(s5) == Xor(TopBit(s[5]), Half(Pack(s6)));
    assert Pack(s4) == Xor(TopBit(s[4]), Half(Pack(s5)));
    assert Pack(s3) == Xor(TopBit(s[3]), Half(Pack(s4)));
    assert Pack(s2) == Xor(TopBit(s[2]), Half(Pack(s3)));
    assert Pack(s1) == Xor(TopBit(s[1]), Half(Pack(s2)));
  }

  lemma EightBits(v: bv8)
    ensures (v as bv16) << 8
      == Xor(TopBit(v & 0x80 != 0), Half(Xor(TopBit(v & 0x40 != 0),
        Half(Xor(TopBit(v & 0x20 != 0), Half(Xor(TopBit(v & 0x10 != 0),
      Half(Xor(TopBit(v & 0x08 != 0),
        Half(Xor(TopBit(v & 0x04 != 0),
          Half(Xor(TopBit(v & 0x02 != 0), Half(Xor(TopBit(v & 0x01 != 0), Half(0))))))))))))))))
  {
  }

  lemma PackBv(v: bv8)
    ensures Pack(BvBits(v)) == (v as bv16) << 8
  {
    hide Xor, TopBit, Half, Pack;
    PackEight(BvBits(v));
    EightBits(v);
  }

  lemma PackOfByte(b: byte)
    ensures Pack(ByteBits(b)) == AtTop(b)
  {
    hide Pack, BvBits;
    PackBv(b as bv8);
  }

  lemma {:induction false} FeedConcat(crc: bv16, a: seq<bool>, b: seq<bool>)
    ensures Feed(crc, a + b) == Feed(Feed(crc, a), b)
    decreases |a|
  {
    hide Xor, Shift, TopBit;
    if a == [] {
      assert a + b == b;
    } else {
      assert (a + b)[1..] == a[1..] + b;
      FeedConcat(Shift(Xor(crc, TopBit(a[0]))), a[1..], b);
    }
  }

  /** The byte-wise loop reads the message bit by bit. */
  lemma {:induction false} UpdateFeedsBits(crc: bv16, data: seq<byte>)
    ensures Update(crc, data) == Feed(crc, Bits(data))
    decreases |data|
  {
    hide Xor, Shift, TopBit, AtTop, ByteBits, Pack, Shifts;
    if data == [] {
    } else {
      FeedIsShifts(crc, ByteBits(data[0]));
      PackOfByte(data[0]);
      FeedConcat(crc, ByteBits(data[0]), Bits(data[1..]));
      UpdateFeedsBits(Shifts(Xor(crc, AtTop(data[0])), 8), data[1..]);
    }
  }

  // ---- Collisions and bursts ----

  function Differ(a: seq<bool>, b: seq<bool>): (d: seq<bool>)
    requires |a| == |b|
    ensures |d| == |a|
  {
    seq(|a|, i requires 0 <= i < |a| => a[i] != b[i])
  }

  lemma {:induction false} FeedIsLinear(x: bv16, y: bv16, a: seq<bool>, b: seq<bool>)
    requires |a| == |b|
    ensures Xor(Feed(x, a), Feed(y, b)) == Feed(Xor(x, y), Differ(a, b))
    decreases |a|
  {
    hide Xor, Shift, TopBit;
    if a == [] {
    } else {
      var d := Differ(a, b);
      assert d[1..] == Differ(a[1..], b[1..]);
      FeedIsLinear(Shift(Xor(x, TopBit(a[0]))), Shift(Xor(y, TopBit(b[0]))), a[1..], b[1..]);
      ShiftIsLinear(Xor(x, TopBit(a[0])), Xor(y, TopBit(b[0])));
      XorRegroup(x, y, TopBit(a[0]), TopBit(b[0]));
      TopBitXor(a[0], b[0]);
    }
  }

  /** Two messages of one length collide if and only if their difference, fed to the zero
      register, leaves it zero. */
  lemma CollideIff(m: seq<byte>, m': seq<byte>)
    requires |m| == |m'|
    ensures Crc16(m) == Crc16(m') <==> Feed(0, Differ(Bits(m), Bits(m'))) == 0
  {
    hide Xor, Feed, Update, Bits, Differ;
    UpdateFeedsBits(INIT, m);
    UpdateFeedsBits(INIT, m');
    FeedIsLinear(INIT, INIT, Bits(m), Bits(m'));
    XorIsZeroIff(Crc16(m), Crc16(m'));
    XorIsZeroIff(INIT, INIT);
  }

  predicate AllZero(s: seq<bool>) { forall i :: 0 <= i < |s| ==> !s[i] }

  lemma {:induction false} FeedZeros(crc: bv16, s: seq<bool>)
    requires AllZero(s)
    ensures Feed(crc, s) == Shifts(crc, |s|)
    decreases |s|
  {
    hide Xor, Shift, TopBit;
    if s == [] {
    } else {
      TopBitXor(false, false);
      XorZero(crc);
      FeedZeros(Shift(crc), s[1..]);
    }
  }

  lemma {:induction false} PackNonzero(s: seq<bool>)
    requires |s| <= 16 && !AllZero(s)
    ensures Pack(s) != 0
  {
    hide Xor, TopBit, Half, LowClear;
    var p := Pack(s[1..]);
    PackLowClear(s[1..]);
    if s[0] {
      TopDominates(p);
    } else {
      var i :| 0 <= i < |s| && s[i];
      assert s[1..][i - 1];
      PackNonzero(s[1..]);
      HalfNonzero(p);
      TopBitXor(false, false);
      XorZero(Half(p));
    }
  }

  /** A non-zero difference confined to a window of 16 bits never drains to zero. */
  lemma BurstSurvives(d: seq<bool>, lo: nat)
    requires !AllZero(d)
    requires forall i :: 0 <= i < |d| && d[i] ==> lo <= i < lo + 16
    ensures Feed(0, d) != 0
  {
    hide Feed;
    var hi := if lo + 16 <= |d| then lo + 16 else |d|;
    var k :| 0 <= k < |d| && d[k];
    var pre, burst, post := d[..lo], d[lo..hi], d[hi..];
    assert burst[k - lo];
    Reassemble(d, lo, hi);
    WindowSurvives(pre, burst, post);
  }

  lemma Reassemble(d: seq<bool>, lo: nat, hi: nat)
    requires lo <= hi <= |d|
    ensures d == d[..lo] + (d[lo..hi] + d[hi..])
  {
  }

  lemma WindowSurvives(pre: seq<bool>, burst: seq<bool>, post: seq<bool>)
    requires AllZero(pre) && AllZero(post) && |burst| <= 16 && !AllZero(burst)
    ensures Feed(0, pre + (burst + post)) != 0
  {
    hide *;
    FeedConcat(0, pre, burst + post);
    FeedZeros(0, pre);
    ShiftsOfZero(|pre|);
    FeedConcat(0, burst, post);
    FeedIsShifts(0, burst);
    PackNonzero(burst);
    XorZero(Pack(burst));
    ShiftsKeepNonzero(Pack(burst), |burst|);
    FeedZeros(Feed(0, burst), post);
    ShiftsKeepNonzero(Feed(0, burst), |post|);
  }

  lemma TopInjective(x: bv8, y: bv8)
    requires (x as bv16) << 8 == (y as bv16) << 8
    ensures x == y
  {
  }

  lemma ByteAsBits(a: byte)
    ensures (a as bv8) as int == a
  {
    var v := a as bv8;
    var w := v as int;
    assert 0 <= w < 256;
    assert a == a % 256;
  }

  lemma ByteBitsInjective(a: byte, b: byte)
    requires ByteBits(a) == ByteBits(b)
    ensures a == b
  {
    hide Pack, ByteBits;
    PackOfByte(a);
    PackOfByte(b);
    TopInjective(a as bv8, b as bv8);
    ByteAsBits(a);
    ByteAsBits(b);
  }

  lemma {:induction false} BitsInjective(m: seq<byte>, m': seq<byte>)
    requires Bits(m) == Bits(m')
    ensures m == m'
  {
    hide ByteBits;
    assert |Bits(m)| == 8 * |m| && |Bits(m')| == 8 * |m'|;
    if m == [] {
    } else {
      assert Bits(m)[..8] == ByteBits(m[0]) && Bits(m')[..8] == ByteBits(m'[0]);
      assert Bits(m)[8..] == Bits(m[1..]) && Bits(m')[8..] == Bits(m'[1..]);
      ByteBitsInjective(m[0], m'[0]);
      BitsInjective(m[1..], m'[1..]);
    }
  }

  /** Every burst error of at most 16 bits is detected, in messages of any length. */
  lemma BurstDetected(m: seq<byte>, m': seq<byte>, lo: nat)
    requires |m| == |m'| && m != m'
    requires forall i :: 0 <= i < 8 * |m| && Bits(m)[i] != Bits(m')[i] ==> lo <= i < lo + 16
    ensures Crc16(m) != Crc16(m')
  {
    hide Crc16, Bits, Feed;
    var d := Differ(Bits(m), Bits(m'));
    assert forall i :: 0 <= i < |d| ==> d[i] == (Bits(m)[i] != Bits(m')[i]);
    if AllZero(d) {
      assert Bits(m) == Bits(m');
      BitsInjective(m, m');
      assert false;
    }
    BurstSurvives(d, lo);
    CollideIff(m, m');
  }
}
