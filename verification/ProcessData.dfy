/** Named pins over the process image (src/hal/process_data.rs).

    `Read` and `Write` say what a pin access means on the image as a value; the two
    methods are the source's loops over the image in place. */
module ProcessData {
  import opened Bytes
  import opened Config

  // ---- Single bits ----

  function Mask(k: nat): bv8 {
    if k == 0 then 0x01 else if k == 1 then 0x02 else if k == 2 then 0x04 else if k == 3 then 0x08
    else if k == 4 then 0x10 else if k == 5 then 0x20 else if k == 6 then 0x40 else 0x80
  }

  predicate Has(v: bv8, m: bv8) { v & m != 0 }
  function With(v: bv8, m: bv8): bv8 { v | m }
  function Without(v: bv8, m: bv8): bv8 { v & !m }
  function AsByte(v: bv8): byte { v as int }
  function AsBv(b: byte): bv8 { b as bv8 }

  predicate BitAt(b: byte, k: nat) { Has(AsBv(b), Mask(k)) }

  /** Bits are numbered from the least significant one, as in the data of an EtherCAT slave. */
  lemma BitIsBinary(b: byte, k: nat)
    requires k < 8
    ensures BitAt(b, k) <==> (b / BIT[k]) % 2 == 1
  {
    hide Has, AsBv;
    match k
    case 0 => Binary0(b);
    case 1 => Binary1(b);
    case 2 => Binary2(b);
    case 3 => Binary3(b);
    case 4 => Binary4(b);
    case 5 => Binary5(b);
    case 6 => Binary6(b);
    case 7 => Binary7(b);
  }

  const BIT: seq<nat> := [1, 2, 4, 8, 16, 32, 64, 128]

  lemma Binary0(b: byte)
    ensures Has(AsBv(b), 0x01) <==> (b) % 2 == 1
  {
    var v := b as bv8;
    assert v & 0x01 != 0 <==> (v / 1) % 2 == 1;
    assert ((v / 1) % 2) as int == (b / 1) % 2;
  }

  lemma Binary1(b: byte)
    ensures Has(AsBv(b), 0x02) <==> (b / 2) % 2 == 1
  {
    var v := b as bv8;
    assert v & 0x02 != 0 <==> (v / 2) % 2 == 1;
    assert ((v / 2) % 2) as int == (b / 2) % 2;
  }

  lemma Binary2(b: byte)
    ensures Has(AsBv(b), 0x04) <==> (b / 4) % 2 == 1
  {
    var v := b as bv8;
    assert v & 0x04 != 0 <==> (v / 4) % 2 == 1;
    assert ((v / 4) % 2) as int == (b / 4) % 2;
  }

  lemma Binary3(b: byte)
    ensures Has(AsBv(b), 0x08) <==> (b / 8) % 2 == 1
  {
    var v := b as bv8;
    assert v & 0x08 != 0 <==> (v / 8) % 2 == 1;
    assert ((v / 8) % 2) as int == (b / 8) % 2;
  }

  lemma Binary4(b: byte)
    ensures Has(AsBv(b), 0x10) <==> (b / 16) % 2 == 1
  {
    var v := b as bv8;
    assert v & 0x10 != 0 <==> (v / 16) % 2 == 1;
    assert ((v / 16) % 2) as int == (b / 16) % 2;
  }

  lemma Binary5(b: byte)
    ensures Has(AsBv(b), 0x20) <==> (b / 32) % 2 == 1
  {
    var v := b as bv8;
    assert v & 0x20 != 0 <==> (v / 32) % 2 == 1;
    assert ((v / 32) % 2) as int == (b / 32) % 2;
  }

  lemma Binary6(b: byte)
    ensures Has(AsBv(b), 0x40) <==> (b / 64) % 2 == 1
  {
    var v := b as bv8;
    assert v & 0x40 != 0 <==> (v / 64) % 2 == 1;
    assert ((v / 64) % 2) as int == (b / 64) % 2;
  }

  lemma Binary7(b: byte)
    ensures Has(AsBv(b), 0x80) <==> (b / 128) % 2 == 1
  {
    var v := b as bv8;
    assert v & 0x80 != 0 <==> (v / 128) % 2 == 1;
    assert ((v / 128) % 2) as int == (b / 128) % 2;
  }

  /** `b | mask` or `b & !mask`. */
  function SetBit(b: byte, k: nat, on: bool): byte {
    AsByte(if on then With(AsBv(b), Mask(k)) else Without(AsBv(b), Mask(k)))
  }

  lemma BvRoundTrip(v: bv8)
    ensures AsBv(AsByte(v)) == v
  {
  }

  lemma MaskBits(v: bv8, k: nat)
    ensures Has(With(v, Mask(k)), Mask(k))
    ensures !Has(Without(v, Mask(k)), Mask(k))
  {
  }

  lemma MasksDisjoint(k: nat, j: nat)
    requires k < 8 && j < 8 && j != k
    ensures !Has(Mask(k), Mask(j))
  {
  }

  lemma MaskOther(v: bv8, m: bv8, n: bv8)
    requires !Has(m, n)
    ensures Has(With(v, m), n) == Has(v, n)
    ensures Has(Without(v, m), n) == Has(v, n)
  {
    assert (v | m) & n == v & n;
    assert (v & !m) & n == v & n;
  }

  lemma MaskTwice(v: bv8, m: bv8)
    ensures With(With(v, m), m) == With(v, m) && Without(With(v, m), m) == Without(v, m)
    ensures With(Without(v, m), m) == With(v, m) && Without(Without(v, m), m) == Without(v, m)
  {
    OrTwice(v, m);
    AndNotTwice(v, m);
    hide With, Without;
  }

  lemma OrTwice(v: bv8, m: bv8)
    ensures With(With(v, m), m) == With(v, m) && With(Without(v, m), m) == With(v, m)
  {
  }

  lemma AndNotTwice(v: bv8, m: bv8)
    ensures Without(With(v, m), m) == Without(v, m) && Without(Without(v, m), m) == Without(v, m)
  {
  }

  lemma SetBitGet(b: byte, k: nat, on: bool)
    ensures BitAt(SetBit(b, k, on), k) == on
  {
    hide Mask, AsByte, AsBv, Has, With, Without;
    MaskBits(AsBv(b), k);
    BvRoundTrip(With(AsBv(b), Mask(k)));
    BvRoundTrip(Without(AsBv(b), Mask(k)));
  }

  lemma SetBitOther(b: byte, k: nat, on: bool, j: nat)
    requires k < 8 && j < 8 && j != k
    ensures BitAt(SetBit(b, k, on), j) == BitAt(b, j)
  {
    hide Mask, AsByte, AsBv, Has, With, Without;
    MasksDisjoint(k, j);
    MaskOther(AsBv(b), Mask(k), Mask(j));
    BvRoundTrip(With(AsBv(b), Mask(k)));
    BvRoundTrip(Without(AsBv(b), Mask(k)));
  }

  lemma SetBitTwice(b: byte, k: nat, x: bool, y: bool)
    ensures SetBit(SetBit(b, k, x), k, y) == SetBit(b, k, y)
  {
    hide Mask, AsByte, AsBv, Has, With, Without;
    MaskTwice(AsBv(b), Mask(k));
    BvRoundTrip(With(AsBv(b), Mask(k)));
    BvRoundTrip(Without(AsBv(b), Mask(k)));
  }

  // ---- The meaning of a pin access ----

  function BytesOf(p: PinCfg): nat { (p.bitLen + 7) / 8 }

  /** `n` bytes from `off`; bytes past the image read as zero. */
  function Window(image: seq<byte>, off: nat, n: nat): (w: seq<byte>)
    ensures |w| == n
  {
    seq(n, i requires 0 <= i < n => if off + i < |image| then image[off + i] else 0)
  }

  function Pow2(n: nat): (p: nat)
    ensures p > 0
  {
    if n == 0 then 1 else 2 * Pow2(n - 1)
  }

  /** Two's complement value of the low `bits` bits of `raw`. */
  function SignExtend(raw: nat, bits: nat): int {
    var r := raw % Pow2(bits);
    if bits > 0 && 2 * r >= Pow2(bits) then r - Pow2(bits) else r
  }

  function Read(image: seq<byte>, p: PinCfg): int {
    if p.halType == Bit then
      if p.byteOffset < |image| && BitAt(image[p.byteOffset], p.bitPos) then 1 else 0
    else
      var raw := FromLe(Window(image, p.byteOffset, BytesOf(p)));
      if p.halType == S32 then SignExtend(raw, p.bitLen) else SignExtend(raw, 64)
  }

  function Write(image: seq<byte>, p: PinCfg, value: int): (r: seq<byte>)
    ensures |r| == |image|
  {
    if p.halType == Bit then
      if p.byteOffset < |image|
      then image[p.byteOffset := SetBit(image[p.byteOffset], p.bitPos, value != 0)]
      else image
    else Overlay(image, p.byteOffset, Le(value % 0x1_0000_0000_0000_0000, BytesOf(p)))
  }

  // ---- The source's loops ----

  method ReadValue(image: array<byte>, p: PinCfg) returns (value: int)
    requires p.bitLen <= 64
    ensures value == Read(image[..], p)
  {
    var off := p.byteOffset;
    if p.halType == Bit {
      return if off < image.Length && BitAt(image[off], p.bitPos) then 1 else 0;
    }
    var n := BytesOf(p);
    var raw, i := 0, 0;
    ghost var w := Window(image[..], off, n);
    while i < n
      invariant 0 <= i <= n
      invariant raw == FromLe(w[..i])
    {
      ghost var was := raw;
      if off + i < image.Length {
        raw := raw + image[off + i] * Pow256(i);
      }
      FromLeSnoc(w[..i], w[i]);
      assert w[..i + 1] == w[..i] + [w[i]];
      i := i + 1;
    }
    assert w[..n] == w;
    value := if p.halType == S32 then SignExtend(raw, p.bitLen) else SignExtend(raw, 64);
  }

  lemma {:induction false} FromLeSnoc(s: seq<byte>, b: byte)
    ensures FromLe(s + [b]) == FromLe(s) + b * Pow256(|s|)
  {
    if s == [] {
      assert [] + [b] == [b];
    } else {
      assert (s + [b])[1..] == s[1..] + [b];
      FromLeSnoc(s[1..], b);
      assert 256 * (b * Pow256(|s| - 1)) == b * Pow256(|s|);
    }
  }

  method WriteValue(image: array<byte>, p: PinCfg, value: int)
    modifies image
    ensures image[..] == Write(old(image[..]), p, value)
  {
    var off := p.byteOffset;
    if p.halType == Bit {
      if off < image.Length {
        image[off] := SetBit(image[off], p.bitPos, value != 0);
      }
      return;
    }
    var n := BytesOf(p);
    var raw := value % 0x1_0000_0000_0000_0000;
    ghost var d, was := Le(raw, n), image[..];
    var i: nat, rest: nat := 0, raw;
    while i < n
      invariant 0 <= i <= n
      invariant d[i..] == Le(rest, n - i)
      invariant image[..] == Overlay(was, off, d[..i])
    {
      assert d[i] == d[i..][0] && d[i + 1..] == d[i..][1..];
      if off + i < image.Length {
        image[off + i] := rest % 256;
      }
      i, rest := i + 1, rest / 256;
    }
    assert d[..n] == d;
  }

  // ---- Lens laws ----

  /** The pins the source handles, inside an image of `n` bytes: single bits anywhere,
      wider fields on byte boundaries. */
  predicate Placed(p: PinCfg, n: nat) {
    if p.halType == Bit then p.bitLen == 1 && p.bitPos < 8 && p.byteOffset < n
    else p.bitPos == 0 && p.bitLen % 8 == 0 && 0 < p.bitLen <= 64 && p.byteOffset + p.bitLen / 8 <= n
  }

  function FirstBit(p: PinCfg): nat { 8 * p.byteOffset + p.bitPos }

  /** The bit ranges of two pins do not meet. */
  predicate Apart(p: PinCfg, q: PinCfg) {
    FirstBit(p) + p.bitLen <= FirstBit(q) || FirstBit(q) + q.bitLen <= FirstBit(p)
  }

  /** `value` cut down to what the pin can hold. */
  function Canon(p: PinCfg, value: int): int {
    if p.halType == Bit then if value != 0 then 1 else 0
    else if p.halType == S32 then SignExtend(value % Pow2(p.bitLen), p.bitLen)
    else SignExtend(value % Pow2(p.bitLen), 64)
  }

  lemma {:induction false} PowersAgree(n: nat)
    ensures Pow256(n) == Pow2(8 * n)
  {
    if n == 0 {
    } else {
      PowersAgree(n - 1);
      var m := 8 * n;
      assert Pow2(m) == 2 * Pow2(m - 1) && Pow2(m - 1) == 2 * Pow2(m - 2) && Pow2(m - 2) == 2 * Pow2(m - 3);
      assert Pow2(m - 3) == 2 * Pow2(m - 4) && Pow2(m - 4) == 2 * Pow2(m - 5) && Pow2(m - 5) == 2 * Pow2(m - 6);
      assert Pow2(m - 6) == 2 * Pow2(m - 7) && Pow2(m - 7) == 2 * Pow2(m - 8);
    }
  }

  lemma {:induction false} PowSplit(a: nat, b: nat)
    ensures Pow256(a + b) == Pow256(a) * Pow256(b)
  {
    if a == 0 {
    } else {
      PowSplit(a - 1, b);
      assert 256 * (Pow256(a - 1) * Pow256(b)) == Pow256(a) * Pow256(b);
    }
  }

  lemma ModOfMod(v: int, a: nat, b: nat)
    requires a > 0 && b > 0
    ensures a * b > 0 && (v % (a * b)) % a == v % a
  {
    assert a * b >= a by {
      MulAtLeast(b, a);
    }
    var q, r := v / (a * b), v % (a * b);
    var s, t := r / a, r % a;
    assert v == q * (a * b) + r && r == a * s + t;
    assert q * (a * b) + a * s == a * (q * b + s) by {
      assert q * (a * b) == a * (q * b);
    }
    EuclidUnique(v, a, q * b + s, t);
  }

  lemma WindowOfOverlay(image: seq<byte>, off: nat, d: seq<byte>)
    requires off + |d| <= |image|
    ensures Window(Overlay(image, off, d), off, |d|) == d
  {
  }

  lemma ReadRaw(value: int, n: nat)
    requires 0 < n <= 8
    ensures FromLe(Le(value % 0x1_0000_0000_0000_0000, n)) == value % Pow2(8 * n)
  {
    FromLeOfLe(value % 0x1_0000_0000_0000_0000, n);
    PowersAgree(n);
    PowSplit(n, 8 - n);
    Pow256Eight();
    ModOfMod(value, Pow256(n), Pow256(8 - n));
  }

  lemma Pow256Eight()
    ensures Pow256(8) == 0x1_0000_0000_0000_0000
  {
    assert Pow256(1) == 0x100 && Pow256(2) == 0x1_0000 && Pow256(3) == 0x100_0000 && Pow256(4) == 0x1_0000_0000;
    assert Pow256(5) == 0x100_0000_0000 && Pow256(6) == 0x1_0000_0000_0000 && Pow256(7) == 0x100_0000_0000_0000;
  }

  /** What is read back is the value written, cut to the pin. */
  lemma ReadAfterWrite(image: seq<byte>, p: PinCfg, value: int)
    requires Placed(p, |image|)
    ensures Read(Write(image, p, value), p) == Canon(p, value)
  {
    if p.halType == Bit {
      SetBitGet(image[p.byteOffset], p.bitPos, value != 0);
    } else {
      var n := BytesOf(p);
      assert 8 * n == p.bitLen;
      var d := Le(value % 0x1_0000_0000_0000_0000, n);
      WindowOfOverlay(image, p.byteOffset, d);
      ReadRaw(value, n);
    }
  }

  /** The pin's bytes as they stand in the image, without sign. */
  function Raw(image: seq<byte>, p: PinCfg): nat { FromLe(Window(image, p.byteOffset, BytesOf(p))) }

  lemma RawAfterWrite(image: seq<byte>, p: PinCfg, value: int)
    requires Placed(p, |image|) && p.halType != Bit
    ensures Raw(Write(image, p, value), p) == value % Pow2(p.bitLen)
  {
    var n := BytesOf(p);
    assert 8 * n == p.bitLen;
    WindowOfOverlay(image, p.byteOffset, Le(value % 0x1_0000_0000_0000_0000, n));
    ReadRaw(value, n);
  }

  lemma WriteKeepsRaw(image: seq<byte>, p: PinCfg, q: PinCfg, value: int)
    requires Placed(p, |image|) && Placed(q, |image|) && Apart(p, q)
    requires p.halType != Bit && q.halType != Bit
    ensures Raw(Write(image, p, value), q) == Raw(image, q)
  {
    ByteApart(p, q, |image|);
    assert Window(Write(image, p, value), q.byteOffset, BytesOf(q)) == Window(image, q.byteOffset, BytesOf(q));
  }

  lemma {:induction false} Pow2Monotone(a: nat, b: nat)
    requires a < b
    ensures 2 * Pow2(a) <= Pow2(b)
  {
    if a + 1 < b {
      Pow2Monotone(a, b - 1);
    }
  }

  lemma SmallMod(r: nat, m: nat)
    requires r < m
    ensures r % m == r
  {
  }

  lemma ByteApart(p: PinCfg, q: PinCfg, n: nat)
    requires Placed(p, n) && Placed(q, n) && Apart(p, q)
    requires !(p.halType == Bit && q.halType == Bit)
    ensures p.byteOffset + BytesOf(p) <= q.byteOffset || q.byteOffset + BytesOf(q) <= p.byteOffset
  {
  }

  /** Writing one pin leaves every pin that shares no bit with it as it was. */
  lemma WriteKeepsOthers(image: seq<byte>, p: PinCfg, q: PinCfg, value: int)
    requires Placed(p, |image|) && Placed(q, |image|) && Apart(p, q)
    ensures Read(Write(image, p, value), q) == Read(image, q)
  {
    var image' := Write(image, p, value);
    if p.halType == Bit && q.halType == Bit {
      if p.byteOffset == q.byteOffset {
        SetBitOther(image[p.byteOffset], p.bitPos, value != 0, q.bitPos);
      }
    } else {
      ByteApart(p, q, |image|);
      assert Window(image', q.byteOffset, BytesOf(q)) == Window(image, q.byteOffset, BytesOf(q));
    }
  }

  /** Of two writes to one pin, the last one stands. */
  lemma LastWriteWins(image: seq<byte>, p: PinCfg, x: int, y: int)
    requires Placed(p, |image|)
    ensures Write(Write(image, p, x), p, y) == Write(image, p, y)
  {
    if p.halType == Bit {
      SetBitTwice(image[p.byteOffset], p.bitPos, x != 0, y != 0);
    }
  }
}
