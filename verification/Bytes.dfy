/** Byte-level vocabulary shared by every codec: bytes, little-endian words, and
    `Splice`, the effect of one `copy_from_slice` on a buffer. */
module Bytes {

  type byte = x: int | 0 <= x < 0x100
  type word = x: int | 0 <= x < 0x1_0000
  type dword = x: int | 0 <= x < 0x1_0000_0000

  datatype Option<+T> = None | Some(value: T)

  /** The 16-bit little-endian image of `w`. */
  function Le16(w: word): (s: seq<byte>)
    ensures |s| == 2
  {
    [w % 0x100, w / 0x100]
  }

  function FromLe16(lo: byte, hi: byte): word {
    lo + 0x100 * hi
  }

  function Le32(v: dword): (s: seq<byte>)
    ensures |s| == 4
  {
    Le16(v % 0x1_0000) + Le16(v / 0x1_0000)
  }

  function FromLe32(s: seq<byte>): dword
    requires |s| == 4
  {
    FromLe16(s[0], s[1]) + 0x1_0000 * FromLe16(s[2], s[3])
  }

  lemma Le32RoundTrip(v: dword)
    ensures FromLe32(Le32(v)) == v
  {
  }

  function Pow256(n: nat): (p: nat)
    ensures p > 0
  {
    if n == 0 then 1 else 256 * Pow256(n - 1)
  }

  /** The low `n` bytes of `v`, least significant first. */
  function Le(v: nat, n: nat): (s: seq<byte>)
    ensures |s| == n
  {
    if n == 0 then [] else [v % 256] + Le(v / 256, n - 1)
  }

  function FromLe(s: seq<byte>): (v: nat)
    ensures v < Pow256(|s|)
  {
    if s == [] then 0 else s[0] + 256 * FromLe(s[1..])
  }

  lemma {:induction false} FromLeOfLe(v: nat, n: nat)
    ensures FromLe(Le(v, n)) == v % Pow256(n)
  {
    if n == 0 {
    } else {
      var p := Pow256(n - 1);
      FromLeOfLe(v / 256, n - 1);
      assert Le(v, n)[1..] == Le(v / 256, n - 1);
      ModSplit(v, p);
    }
  }

  /** Splitting off the least significant byte commutes with truncation. */
  lemma ModSplit(v: nat, p: nat)
    requires p > 0
    ensures v % (256 * p) == v % 256 + 256 * ((v / 256) % p)
  {
    var q := v / 256;
    var k := q / p;
    assert q == k * p + q % p;
    var r := v % 256 + 256 * (q % p);
    assert v == k * (256 * p) + r by {
      assert v == 256 * q + v % 256;
      assert 256 * (k * p) == k * (256 * p);
    }
    assert q % p <= p - 1;
    assert k * (256 * p) == (256 * p) * k;
    EuclidUnique(v, 256 * p, k, r);
  }

  /** Quotient and remainder are determined by their equation. */
  lemma EuclidUnique(v: int, m: nat, k: int, r: int)
    requires 0 <= r < m && v == m * k + r
    ensures v / m == k && v % m == r
  {
    var k', r' := v / m, v % m;
    assert v == m * k' + r';
    assert m * (k - k') == r' - r by {
      assert m * (k - k') == m * k - m * k';
    }
    if k > k' {
      assert m * (k - k') >= m by { MulAtLeast(k - k', m); }
    } else if k < k' {
      assert m * (k' - k) >= m by { MulAtLeast(k' - k, m); }
    }
  }

  lemma MulAtLeast(a: nat, m: nat)
    requires a >= 1
    ensures a * m >= m
  {
    assert a * m == (a - 1) * m + m;
  }

  lemma {:induction false} LeOfFromLe(s: seq<byte>)
    ensures Le(FromLe(s), |s|) == s
  {
    if s == [] {
    } else {
      LeOfFromLe(s[1..]);
      assert FromLe(s) % 256 == s[0] && FromLe(s) / 256 == FromLe(s[1..]);
    }
  }

  /** Only the low `n` bytes of the value matter to `Le`. */
  lemma {:induction false} LeTruncates(v: nat, n: nat)
    ensures Le(v, n) == Le(v % Pow256(n), n)
  {
    FromLeOfLe(v, n);
    LeOfFromLe(Le(v, n));
  }

  /** `n * stride`, by addition. */
  function Times(n: nat, stride: nat): nat { if n == 0 then 0 else Times(n - 1, stride) + stride }

  lemma {:induction false} TimesIsProduct(n: nat, stride: nat)
    ensures Times(n, stride) == n * stride
  {
    if n > 0 {
      TimesIsProduct(n - 1, stride);
      assert (n - 1) * stride + stride == n * stride;
    }
  }

  function Zeros(n: nat): (s: seq<byte>)
    ensures |s| == n
    ensures forall i :: 0 <= i < n ==> s[i] == 0
  {
    seq(n, _ => 0)
  }

  /** `s` after copying `d` over the bytes starting at `off`. */
  function Splice(s: seq<byte>, off: nat, d: seq<byte>): (r: seq<byte>)
    requires off + |d| <= |s|
    ensures |r| == |s|
  {
    s[..off] + d + s[off + |d|..]
  }

  lemma Assoc<T>(x: seq<T>, a: seq<T>, b: seq<T>, c: seq<T>)
    ensures x + (a + b + c) == (x + a) + b + c
  {
  }

  lemma Assoc4<T>(x: seq<T>, a: seq<T>, b: seq<T>, y: seq<T>)
    ensures x + (a + b) + y == x + a + b + y
  {
  }

  lemma Regroup<T>(x: seq<T>, a: seq<T>, b: seq<T>, c: seq<T>, y: seq<T>, z: seq<T>)
    ensures x + (a + b + c) + y + z == (x + a) + b + (c + y + z)
  {
  }

  /** The bytes `d` laid over the image from `off`, clipped to the image. */
  function Overlay(image: seq<byte>, off: nat, d: seq<byte>): (r: seq<byte>)
    ensures |r| == |image|
    ensures forall j :: 0 <= j < |image| ==> r[j] == if off <= j < off + |d| then d[j - off] else image[j]
  {
    seq(|image|, j requires 0 <= j < |image| => if off <= j < off + |d| then d[j - off] else image[j])
  }

  /** Two adjacent copies are one longer copy. */
  lemma SpliceAdjacent(s: seq<byte>, off: nat, a: seq<byte>, b: seq<byte>)
    requires off + |a| + |b| <= |s|
    ensures Splice(Splice(s, off, a), off + |a|, b) == Splice(s, off, a + b)
  {
    var l, r := Splice(Splice(s, off, a), off + |a|, b), Splice(s, off, a + b);
    assert l[off + |a| + |b|..] == s[off + |a| + |b|..] by {
      assert Splice(s, off, a) == s[..off] + a + s[off + |a|..];
    }
    assert l == s[..off] + a + b + s[off + |a| + |b|..];
    assert r == s[..off] + (a + b) + s[off + |a| + |b|..];
  }

  /** Copying over the start of what follows `a`. */
  lemma SpliceTail(a: seq<byte>, t: seq<byte>, off: nat, d: seq<byte>)
    requires off == |a| && |d| <= |t|
    ensures Splice(a + t, off, d) == a + d + t[|d|..]
  {
    assert (a + t)[..|a|] == a && (a + t)[|a| + |d|..] == t[|d|..];
  }

  /** `buf[off..off + d.len()].copy_from_slice(d)`. */
  method CopyInto(buf: array<byte>, off: nat, d: seq<byte>)
    requires off + |d| <= buf.Length
    modifies buf
    ensures buf[..] == Splice(old(buf[..]), off, d)
  {
    forall i | 0 <= i < |d| {
      buf[off + i] := d[i];
    }
    assert buf[..off] == old(buf[..off]);
    assert buf[off + |d|..] == old(buf[off + |d|..]);
    assert buf[off..off + |d|] == d;
    assert buf[..] == buf[..off] + buf[off..off + |d|] + buf[off + |d|..];
    assert old(buf[..])[..off] == old(buf[..off]);
    assert old(buf[..])[off + |d|..] == old(buf[off + |d|..]);
  }
}
