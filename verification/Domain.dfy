/** The process-data domain (src/ethercat/domain.rs). */
module Domain {
  import opened Bytes
  import opened Config
  import opened Datagram

  datatype WkcState = Zero | Incomplete | Complete

  // ---- Meaning ----

  function FmmuWkc(f: FmmuCfg): nat { if f.dir == Output then 2 else 1 }

  /** `expected_wkc`: two per output FMMU, one per input FMMU. */
  function ExpectedWkc(fmmus: seq<FmmuCfg>): nat {
    if fmmus == [] then 0 else ExpectedWkc(fmmus[..|fmmus| - 1]) + FmmuWkc(fmmus[|fmmus| - 1])
  }

  /** The first 32 input ranges, in order. */
  function InputRanges(fmmus: seq<FmmuCfg>): (rs: seq<(nat, nat)>)
    ensures |rs| <= MAX_SLAVES
  {
    if fmmus == [] then []
    else
      var rs, f := InputRanges(fmmus[..|fmmus| - 1]), fmmus[|fmmus| - 1];
      if f.dir == Input && |rs| < MAX_SLAVES then rs + [(f.logicalStart, f.size)] else rs
  }

  /** One input range copied back, clipped to the image and skipped if the reply is short. */
  function ApplyRange(image: seq<byte>, r: (nat, nat), data: seq<byte>): (image': seq<byte>)
    ensures |image'| == |image|
  {
    var end := if r.0 + r.1 < |image| then r.0 + r.1 else |image|;
    if r.0 < end && end <= |data| then Splice(image, r.0, data[r.0..end]) else image
  }

  function ApplyRanges(image: seq<byte>, rs: seq<(nat, nat)>, data: seq<byte>): (image': seq<byte>)
    ensures |image'| == |image|
    decreases |rs|
  {
    if rs == [] then image else ApplyRanges(ApplyRange(image, rs[0], data), rs[1..], data)
  }

  function JudgeWkc(wkc: word, expected: word): WkcState {
    if wkc == 0 then Zero else if wkc == expected then Complete else Incomplete
  }

  function LrwOf(image: seq<byte>, index: byte): Dgram { Dgram(LRW, index, 0, 0, image, 0) }

  // ---- The object ----

  class EcDomain {
    /** The used part of the source's fixed buffer: `min(image_size, MAX_IMAGE)` bytes. */
    const image: array<byte>
    const expectedWkc: word
    var lastWkc: word
    const inputRanges: seq<(nat, nat)>

    constructor (fmmus: seq<FmmuCfg>, imageSize: nat)
      ensures fresh(image) && image.Length == if imageSize < MAX_IMAGE then imageSize else MAX_IMAGE
      ensures image[..] == Zeros(image.Length) && lastWkc == 0
      ensures expectedWkc == ExpectedWkc(fmmus) % 0x1_0000 && inputRanges == InputRanges(fmmus)
    {
      var wkc: word, ranges: seq<(nat, nat)> := 0, [];
      for i := 0 to |fmmus|
        invariant wkc == ExpectedWkc(fmmus[..i]) % 0x1_0000 && ranges == InputRanges(fmmus[..i])
      {
        var f := fmmus[i];
        assert fmmus[..i + 1][..i] == fmmus[..i];
        match f.dir {
          case Output => wkc := (wkc + 2) % 0x1_0000;
          case Input =>
            wkc := (wkc + 1) % 0x1_0000;
            if |ranges| < MAX_SLAVES {
              ranges := ranges + [(f.logicalStart, f.size)];
            }
        }
      }
      assert fmmus[..|fmmus|] == fmmus;
      image := new byte[if imageSize < MAX_IMAGE then imageSize else MAX_IMAGE](_ => 0);
      expectedWkc, lastWkc, inputRanges := wkc, 0, ranges;
      new;
      assert image[..] == Zeros(image.Length);
    }

    /** The cyclic LRW over the whole image at logical address 0. */
    method BuildLrw(buf: array<byte>, index: byte) returns (total: nat)
      requires buf != image && MIN_FRAME <= buf.Length
        && FRAME_HEADER + DGRAM_HEADER + image.Length + DGRAM_FOOTER <= buf.Length
      modifies buf
      ensures var f := Frame([LrwOf(image[..], index)]);
        total == |f| <= buf.Length && buf[..] == f + old(buf[..])[|f|..]
    {
      total := Build(buf, index, LRW, 0, 0, image[..]);
    }

    method ApplyReply(reply: Reply) returns (state: WkcState)
      modifies this`lastWkc, image
      ensures image[..] == ApplyRanges(old(image[..]), inputRanges, reply.data)
      ensures lastWkc == reply.wkc && state == JudgeWkc(reply.wkc, expectedWkc)
    {
      hide ApplyRange, ApplyRanges;
      assert inputRanges[0..] == inputRanges;
      for i := 0 to |inputRanges|
        invariant ApplyRanges(image[..], inputRanges[i..], reply.data)
          == ApplyRanges(old(image[..]), inputRanges, reply.data)
      {
        RangesStep(image[..], inputRanges, i, reply.data);
        CopyRange(inputRanges[i], reply.data);
      }
      RangesEnd(image[..], inputRanges, reply.data);
      lastWkc := reply.wkc;
      state := JudgeWkc(reply.wkc, expectedWkc);
    }

    method CopyRange(r: (nat, nat), data: seq<byte>)
      modifies image
      ensures image[..] == ApplyRange(old(image[..]), r, data)
    {
      var (start, size) := r;
      var end := if start + size < image.Length then start + size else image.Length;
      if start < end && end <= |data| {
        CopyInto(image, start, data[start..end]);
      }
    }
  }

  lemma RangesStep(image: seq<byte>, rs: seq<(nat, nat)>, i: nat, data: seq<byte>)
    requires i < |rs|
    ensures ApplyRanges(image, rs[i..], data) == ApplyRanges(ApplyRange(image, rs[i], data), rs[i + 1..], data)
  {
    assert rs[i..][1..] == rs[i + 1..];
  }

  lemma RangesEnd(image: seq<byte>, rs: seq<(nat, nat)>, data: seq<byte>)
    ensures ApplyRanges(image, rs[|rs|..], data) == image
  {
  }
}
