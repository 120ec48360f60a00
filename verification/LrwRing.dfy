/** One LRW frame around the ring: what the slaves make of the frame `Domain` builds, and
    what the master makes of the frame that returns (src/ethercat/domain.rs:48-117).

    A slave is its 64 KiB of registers and process RAM; it maps logical to physical
    addresses by the FMMU pages it finds at 0x0600 and counts a successful read as 1 and a
    successful write as 2 (ETG.1000.4, section 6.6). */
module LrwRing {
  import opened Bytes
  import opened Config
  import opened Datagram
  import opened Domain
  import opened EscPages
  import opened Ecrt

  const MEM: nat := 0x1_0000
  /** Process RAM starts here; below are the registers. */
  const RAM: nat := 0x1000

  /** A slave controller with `fmmus` FMMU channels. */
  datatype Esc = Esc(mem: seq<byte>, fmmus: nat)

  type Slave = e: Esc | |e.mem| == MEM && 0x0600 + 16 * e.fmmus <= RAM witness Esc(Zeros(MEM), 0)

  /** The mapping channel `i` performs, if it is enabled. */
  function Channel(e: Slave, i: nat): Option<FmmuCfg>
    requires i < e.fmmus
  {
    DecodeFmmu(e.mem[0x0600 + 16 * i..0x0610 + 16 * i])
  }

  /** The slice of process RAM a mapping covers. */
  function Area(mem: seq<byte>, f: FmmuCfg): (a: seq<byte>)
    requires f.physStart + f.size <= |mem|
    ensures |a| == f.size
  {
    mem[f.physStart..f.physStart + f.size]
  }

  /** The bytes of the frame a mapping covers. */
  function Region(data: seq<byte>, f: FmmuCfg): (a: seq<byte>)
    requires f.logicalStart + f.size <= |data|
    ensures |a| == f.size
  {
    data[f.logicalStart..f.logicalStart + f.size]
  }

  /** A mapping meets the frame. */
  predicate Touches(f: FmmuCfg, n: nat) { f.size > 0 && f.logicalStart < n }

  /** A read channel puts its RAM into the passing frame, as far as the frame reaches. */
  function ReadChannel(mem: seq<byte>, data: seq<byte>, f: FmmuCfg): (r: seq<byte>)
    ensures |r| == |data|
  {
    if f.dir == Input && f.physStart + f.size <= |mem| then Overlay(data, f.logicalStart, Area(mem, f)) else data
  }

  /** A write channel takes its part of the frame into RAM. */
  function WriteChannel(mem: seq<byte>, data: seq<byte>, f: FmmuCfg): (r: seq<byte>)
    ensures |r| == |mem|
  {
    if f.dir != Output then mem
    else if f.logicalStart + f.size <= |data| then Overlay(mem, f.physStart, Region(data, f))
    else if f.logicalStart <= |data| then Overlay(mem, f.physStart, data[f.logicalStart..])
    else mem
  }

  function Reads(e: Slave, i: nat, data: seq<byte>): (r: seq<byte>)
    requires i <= e.fmmus
    ensures |r| == |data|
    decreases e.fmmus - i
  {
    if i == e.fmmus then data
    else Reads(e, i + 1, match Channel(e, i) case Some(f) => ReadChannel(e.mem, data, f) case None => data)
  }

  function Writes(e: Slave, i: nat, mem: seq<byte>, data: seq<byte>): (r: seq<byte>)
    requires i <= e.fmmus
    ensures |r| == |mem|
    decreases e.fmmus - i
  {
    if i == e.fmmus then mem
    else Writes(e, i + 1, match Channel(e, i) case Some(f) => WriteChannel(mem, data, f) case None => mem, data)
  }

  /** Some channel from `i` on, of direction `dir`, meets a frame of `n` bytes. */
  predicate Hit(e: Slave, i: nat, dir: Direction, n: nat)
    requires i <= e.fmmus
    decreases e.fmmus - i
  {
    i < e.fmmus
    && ((Channel(e, i).Some? && Channel(e, i).value.dir == dir && Touches(Channel(e, i).value, n))
      || Hit(e, i + 1, dir, n))
  }

  /** The frame, the slave and the working counter after one slave. */
  datatype Passed = Passed(e: Slave, data: seq<byte>, wkc: nat)

  function Pass(e: Slave, data: seq<byte>, wkc: nat): Passed
  {
    Passed(e.(mem := Writes(e, 0, e.mem, data)), Reads(e, 0, data),
           wkc + (if Hit(e, 0, Input, |data|) then 1 else 0) + (if Hit(e, 0, Output, |data|) then 2 else 0))
  }

  // ---- A slave configured by the generator ----

  /** A slave as the generator emits it: one output mapping, one input mapping. */
  type GenCfg = c: SlaveCfg | |c.fmmus| == 2 && c.fmmus[0].dir == Output && c.fmmus[1].dir == Input
    witness SlaveCfg(0, [], [FmmuCfg(0, 0, 0, Output), FmmuCfg(0, 0, 0, Input)], None, [])

  function Out(c: GenCfg): FmmuCfg { c.fmmus[0] }
  function In(c: GenCfg): FmmuCfg { c.fmmus[1] }

  /** The slave's pages are those `write_page` renders, the other channels are off. */
  predicate Configured(e: Slave, c: GenCfg) {
    && e.fmmus >= 2
    && e.mem[0x0600..0x0610] == FmmuPage(Out(c))
    && e.mem[0x0610..0x0620] == FmmuPage(In(c))
    && forall i :: 2 <= i < e.fmmus ==> Channel(e, i) == None
  }

  /** Its RAM areas and logical regions exist. */
  predicate Placed(c: GenCfg, n: nat) {
    && RAM <= Out(c).physStart && Out(c).physStart + Out(c).size <= MEM && Out(c).logicalStart + Out(c).size <= n
    && RAM <= In(c).physStart && In(c).physStart + In(c).size <= MEM && In(c).logicalStart + In(c).size <= n
  }

  lemma {:induction false} OffChannels(e: Slave, i: nat, mem: seq<byte>, data: seq<byte>)
    requires i <= e.fmmus
    requires forall j :: i <= j < e.fmmus ==> Channel(e, j) == None
    ensures Reads(e, i, data) == data && Writes(e, i, mem, data) == mem
    ensures forall dir, n :: !Hit(e, i, dir, n)
    decreases e.fmmus - i
  {
    if i < e.fmmus {
      OffChannels(e, i + 1, mem, data);
    }
  }

  lemma Channels(e: Slave, c: GenCfg)
    requires Configured(e, c)
    ensures Channel(e, 0) == Some(Out(c)) && Channel(e, 1) == Some(In(c))
  {
    FmmuRoundTrip(Out(c));
    FmmuRoundTrip(In(c));
  }

  lemma HitIff(e: Slave, c: GenCfg, n: nat)
    requires Configured(e, c) && Placed(c, n)
    ensures Hit(e, 0, Output, n) <==> Out(c).size > 0 && Out(c).logicalStart < n
    ensures Hit(e, 0, Input, n) <==> In(c).size > 0 && In(c).logicalStart < n
  {
    Channels(e, c);
    OffChannels(e, 2, [], []);
    assert !Hit(e, 2, Output, n) && !Hit(e, 2, Input, n);
    assert Hit(e, 0, Output, n) <==> Touches(Out(c), n) || Hit(e, 1, Output, n);
  }

  /** A configured slave moves exactly its own two areas. */
  lemma PassOne(e: Slave, c: GenCfg, data: seq<byte>, wkc: nat)
    requires Configured(e, c) && Placed(c, |data|)
    ensures var p := Pass(e, data, wkc);
      && p.data == Overlay(data, In(c).logicalStart, Area(e.mem, In(c)))
      && p.e == e.(mem := Overlay(e.mem, Out(c).physStart, Region(data, Out(c))))
      && p.wkc == wkc + SlaveWkc(c)
  {
    Channels(e, c);
    HitIff(e, c, |data|);
    PassReads(e, c, data);
    PassWrites(e, c, data);
  }

  lemma PassReads(e: Slave, c: GenCfg, data: seq<byte>)
    requires Configured(e, c) && Placed(c, |data|)
    ensures Reads(e, 0, data) == Overlay(data, In(c).logicalStart, Area(e.mem, In(c)))
  {
    Channels(e, c);
    var data1 := Overlay(data, In(c).logicalStart, Area(e.mem, In(c)));
    OffChannels(e, 2, e.mem, data1);
    hide Channel, Configured;
    assert Reads(e, 0, data) == Reads(e, 1, data);
    assert Reads(e, 1, data) == Reads(e, 2, data1);
  }

  lemma PassWrites(e: Slave, c: GenCfg, data: seq<byte>)
    requires Configured(e, c) && Placed(c, |data|)
    ensures Writes(e, 0, e.mem, data) == Overlay(e.mem, Out(c).physStart, Region(data, Out(c)))
  {
    Channels(e, c);
    var mem1 := Overlay(e.mem, Out(c).physStart, Region(data, Out(c)));
    OffChannels(e, 2, mem1, data);
    hide Channel, Configured;
    assert Writes(e, 0, e.mem, data) == Writes(e, 1, mem1, data);
    assert Writes(e, 1, mem1, data) == Writes(e, 2, mem1, data);
  }

  // ---- The ring ----

  function RingData(es: seq<Slave>, data: seq<byte>): (r: seq<byte>)
    ensures |r| == |data|
    decreases |es|
  {
    if es == [] then data else RingData(es[1..], Pass(es[0], data, 0).data)
  }

  function RingWkc(es: seq<Slave>, data: seq<byte>, wkc: nat): nat
    decreases |es|
  {
    if es == [] then wkc else RingWkc(es[1..], Pass(es[0], data, 0).data, Pass(es[0], data, wkc).wkc)
  }

  function RingSlaves(es: seq<Slave>, data: seq<byte>): (r: seq<Slave>)
    ensures |r| == |es|
    decreases |es|
  {
    if es == [] then [] else [Pass(es[0], data, 0).e] + RingSlaves(es[1..], Pass(es[0], data, 0).data)
  }

  /** Two logical regions share no byte. */
  predicate Off(f: FmmuCfg, g: FmmuCfg) {
    f.logicalStart + f.size <= g.logicalStart || g.logicalStart + g.size <= f.logicalStart
  }

  predicate InRegion(i: nat, f: FmmuCfg) { f.logicalStart <= i < f.logicalStart + f.size }

  /** A bus whose slaves hold their pages and whose logical regions are apart: what
      `Layout` provides and bring-up establishes. */
  ghost predicate BusOk(es: seq<Slave>, cs: seq<GenCfg>, n: nat) {
    && |es| == |cs|
    && (forall k :: 0 <= k < |cs| ==> Configured(es[k], cs[k]) && Placed(cs[k], n))
    && (forall k, j :: 0 <= k < |cs| && 0 <= j < |cs| ==> Off(Out(cs[k]), In(cs[j])))
    && (forall k, j :: 0 <= k < j < |cs| ==> Off(In(cs[k]), In(cs[j])))
  }

  lemma BusOkTail(es: seq<Slave>, cs: seq<GenCfg>, n: nat)
    requires BusOk(es, cs, n) && es != []
    ensures BusOk(es[1..], cs[1..], n)
  {
    hide Configured, Placed, Off;
  }

  lemma BusBounds(es: seq<Slave>, cs: seq<GenCfg>, n: nat, k: nat)
    requires BusOk(es, cs, n) && k < |cs|
    ensures |es| == |cs|
    ensures Out(cs[k]).logicalStart + Out(cs[k]).size <= n && In(cs[k]).logicalStart + In(cs[k]).size <= n
    ensures In(cs[k]).physStart + In(cs[k]).size <= MEM && Out(cs[k]).physStart + Out(cs[k]).size <= MEM
  {
    assert Placed(cs[k], n);
  }

  lemma BusApart(es: seq<Slave>, cs: seq<GenCfg>, n: nat, k: nat, j: nat)
    requires BusOk(es, cs, n) && k < |cs| && j < |cs|
    ensures Off(Out(cs[k]), In(cs[j]))
    ensures k != j ==> Off(In(cs[k]), In(cs[j]))
  {
    hide Configured, Placed;
    if k < j {
      assert Off(In(cs[k]), In(cs[j]));
    } else if j < k {
      assert Off(In(cs[j]), In(cs[k]));
    }
  }

  /** The first slave of the ring. */
  lemma RingStep(es: seq<Slave>, cs: seq<GenCfg>, data: seq<byte>, wkc: nat)
    requires BusOk(es, cs, |data|) && es != []
    ensures In(cs[0]).physStart + In(cs[0]).size <= |es[0].mem|
    ensures Out(cs[0]).logicalStart + Out(cs[0]).size <= |data|
    ensures var data1 := Overlay(data, In(cs[0]).logicalStart, Area(es[0].mem, In(cs[0])));
      && RingData(es, data) == RingData(es[1..], data1)
      && RingSlaves(es, data)
         == [es[0].(mem := Overlay(es[0].mem, Out(cs[0]).physStart, Region(data, Out(cs[0]))))] + RingSlaves(es[1..],
           data1)
      && RingWkc(es, data, wkc)
         == RingWkc(es[1..], data1, wkc + SlaveWkc(cs[0]))
  {
    PassOne(es[0], cs[0], data, wkc);
    PassOne(es[0], cs[0], data, 0);
    BusBounds(es, cs, |data|, 0);
  }

  function SlaveWkc(c: GenCfg): nat {
    (if Out(c).size > 0 then 2 else 0) + (if In(c).size > 0 then 1 else 0)
  }

  /** The working counter a full ring earns: nothing for mappings of size 0. */
  function EarnedWkc(cs: seq<GenCfg>): nat
  {
    if cs == [] then 0
    else SlaveWkc(cs[0]) + EarnedWkc(cs[1..])
  }

  lemma {:induction false} RingWkcIs(es: seq<Slave>, cs: seq<GenCfg>, data: seq<byte>, wkc: nat)
    requires BusOk(es, cs, |data|)
    ensures RingWkc(es, data, wkc) == wkc + EarnedWkc(cs)
    decreases |es|
  {
    hide Configured, Pass, Area, Overlay;
    if es == [] {
    } else {
      RingStep(es, cs, data, wkc);
      BusOkTail(es, cs, |data|);
      hide BusOk;
      var data1 := Overlay(data, In(cs[0]).logicalStart, Area(es[0].mem, In(cs[0])));
      RingWkcIs(es[1..], cs[1..], data1, wkc + SlaveWkc(cs[0]));
    }
  }

  /** Bytes in no input region come back as they were sent. */
  lemma {:induction false} RingKeeps(es: seq<Slave>, cs: seq<GenCfg>, data: seq<byte>, i: nat)
    requires BusOk(es, cs, |data|) && i < |data|
    requires forall k :: 0 <= k < |cs| ==> !InRegion(i, In(cs[k]))
    ensures RingData(es, data)[i] == data[i]
    decreases |es|
  {
    if es != [] {
      RingStep(es, cs, data, 0);
      BusOkTail(es, cs, |data|);
      hide BusOk, Configured, RingData;
      RingKeeps(es[1..], cs[1..], Overlay(data, In(cs[0]).logicalStart, Area(es[0].mem, In(cs[0]))), i);
    }
  }

  /** Each input region comes back holding its own slave's RAM. */
  lemma {:induction false} RingGathers(es: seq<Slave>, cs: seq<GenCfg>, data: seq<byte>, k: nat, i: nat)
    requires BusOk(es, cs, |data|) && k < |cs| && i < In(cs[k]).size
    ensures In(cs[k]).logicalStart + i < |data| && In(cs[k]).physStart + i < |es[k].mem|
    ensures RingData(es, data)[In(cs[k]).logicalStart + i] == es[k].mem[In(cs[k]).physStart + i]
    decreases |es|
  {
    hide BusOk, Configured, RingData, Pass;
    BusBounds(es, cs, |data|, k);
    RingStep(es, cs, data, 0);
    BusOkTail(es, cs, |data|);
    var data1 := Overlay(data, In(cs[0]).logicalStart, Area(es[0].mem, In(cs[0])));
    if k == 0 {
      forall j | 0 <= j < |cs[1..]|
        ensures !InRegion(In(cs[0]).logicalStart + i, In(cs[1..][j]))
      {
        BusApart(es, cs, |data|, 0, j + 1);
      }
      RingKeeps(es[1..], cs[1..], data1, In(cs[0]).logicalStart + i);
    } else {
      RingGathers(es[1..], cs[1..], data1, k - 1, i);
    }
  }

  /** Each slave receives exactly its own output bytes, and nothing else in it changes. */
  lemma {:induction false} RingDelivers(es: seq<Slave>, cs: seq<GenCfg>, data: seq<byte>, k: nat)
    requires BusOk(es, cs, |data|) && k < |cs|
    ensures Out(cs[k]).logicalStart + Out(cs[k]).size <= |data|
    ensures RingSlaves(es, data)[k]
         == es[k].(mem := Overlay(es[k].mem, Out(cs[k]).physStart, Region(data, Out(cs[k]))))
    decreases |es|
  {
    hide BusOk, Configured, RingData, Pass;
    BusBounds(es, cs, |data|, k);
    RingStep(es, cs, data, 0);
    if k > 0 {
      var data1 := Overlay(data, In(cs[0]).logicalStart, Area(es[0].mem, In(cs[0])));
      BusOkTail(es, cs, |data|);
      BusApart(es, cs, |data|, k, 0);
      assert Region(data1, Out(cs[k])) == Region(data, Out(cs[k]));
      RingDelivers(es[1..], cs[1..], data1, k - 1);
    }
  }

  // ---- Back in the master ----

  /** Every mapping of the bus, in the order `from_config` visits them. */
  function AllFmmus(cs: seq<GenCfg>): seq<FmmuCfg> {
    if cs == [] then [] else AllFmmus(cs[..|cs| - 1]) + cs[|cs| - 1].fmmus
  }

  function InRange(c: GenCfg): (nat, nat) { (In(c).logicalStart, In(c).size) }

  lemma {:induction false} RangesOf(cs: seq<GenCfg>)
    requires |cs| <= MAX_SLAVES
    ensures InputRanges(AllFmmus(cs)) == seq(|cs|, k requires 0 <= k < |cs| => InRange(cs[k]))
    ensures ExpectedWkc(AllFmmus(cs)) == 3 * |cs|
  {
    if cs != [] {
      var n := |cs| - 1;
      var fs, c := AllFmmus(cs[..n]), cs[n];
      RangesOf(cs[..n]);
      var all := fs + [Out(c)] + [In(c)];
      assert AllFmmus(cs) == all;
      assert all[..|all| - 1] == fs + [Out(c)];
      assert (fs + [Out(c)])[..|fs|] == fs;
    }
  }

  predicate Covered(i: nat, rs: seq<(nat, nat)>) {
    exists r :: r in rs && r.0 <= i < r.0 + r.1
  }

  /** A byte outside every input range survives any reply whatever. */
  lemma {:induction false} ApplyKeeps(image: seq<byte>, rs: seq<(nat, nat)>, data: seq<byte>, i: nat)
    requires i < |image| && !Covered(i, rs)
    ensures ApplyRanges(image, rs, data)[i] == image[i]
    decreases |rs|
  {
    if rs != [] {
      assert rs[0] in rs;
      ApplyKeeps(ApplyRange(image, rs[0], data), rs[1..], data, i);
    }
  }

  /** A byte inside an input range takes the value a full-length reply carries. */
  lemma {:induction false} ApplyTakes(image: seq<byte>, rs: seq<(nat, nat)>, data: seq<byte>, i: nat)
    requires i < |image| == |data| && (Covered(i, rs) || image[i] == data[i])
    ensures ApplyRanges(image, rs, data)[i] == data[i]
    decreases |rs|
  {
    if rs != [] {
      var image1 := ApplyRange(image, rs[0], data);
      if Covered(i, rs) && !Covered(i, rs[1..]) {
        var r :| r in rs && r.0 <= i < r.0 + r.1;
        assert r == rs[0];
      }
      ApplyTakes(image1, rs[1..], data, i);
    }
  }

  lemma {:induction false} EarnedIsFullIff(cs: seq<GenCfg>)
    ensures EarnedWkc(cs) <= 3 * |cs|
    ensures EarnedWkc(cs) == 3 * |cs| <==> forall c <- cs :: Out(c).size > 0 && In(c).size > 0
  {
    if cs != [] {
      EarnedIsFullIff(cs[1..]);
    }
  }

  /** The reply frame after the ring: same shape, the slaves' data and count. */
  function Returned(es: seq<Slave>, image: seq<byte>, index: byte): Dgram {
    LrwOf(image, index).(payload := RingData(es, image), wkc := RingWkc(es, image, 0) % 0x1_0000)
  }

  /** The image once the returned frame has been parsed and applied. */
  function Exchanged(es: seq<Slave>, cs: seq<GenCfg>, image: seq<byte>, index: byte, trailer: seq<byte>): (r: seq<byte>)
    ensures |r| == |image|
  {
    match Parse(Frame([Returned(es, image, index)]) + trailer)
    case Some(reply) => ApplyRanges(image, InputRanges(AllFmmus(cs)), reply.data)
    case None => image
  }

  lemma ReturnedParses(es: seq<Slave>, image: seq<byte>, index: byte, trailer: seq<byte>)
    requires |image| <= MAX_IMAGE
    ensures Parse(Frame([Returned(es, image, index)]) + trailer) == Some(ReplyOf(Returned(es, image, index)))
  {
    ParseInFrame([Returned(es, image, index)], trailer, 0);
  }

  lemma CoveredIff(cs: seq<GenCfg>, i: nat)
    requires |cs| <= MAX_SLAVES
    ensures Covered(i, InputRanges(AllFmmus(cs))) <==> exists k :: 0 <= k < |cs| && InRegion(i, In(cs[k]))
  {
    RangesOf(cs);
    var rs := InputRanges(AllFmmus(cs));
    if Covered(i, rs) {
      var r :| r in rs && r.0 <= i < r.0 + r.1;
      var k :| 0 <= k < |rs| && rs[k] == r;
      assert InRegion(i, In(cs[k]));
    }
    if k :| 0 <= k < |cs| && InRegion(i, In(cs[k])) {
      assert rs[k] in rs;
    }
  }

  /** No slave's input mapping covers byte `i`: an output byte, or a gap. */
  predicate NotInput(i: nat, cs: seq<GenCfg>) {
    forall k :: 0 <= k < |cs| ==> !InRegion(i, In(cs[k]))
  }

  /** One cyclic exchange, master to slaves and back: the slaves take a logical read and write
      of the whole image from logical address zero on; every slave's output area holds its
      part of the image, every input region holds its slave's RAM, and no other image byte
      moves. */
  lemma CyclicExchange(es: seq<Slave>, cs: seq<GenCfg>, image: seq<byte>, index: byte, trailer: seq<byte>)
    requires BusOk(es, cs, |image|) && |cs| <= MAX_SLAVES && |image| <= MAX_IMAGE
    ensures SlaveReads(Frame([LrwOf(image, index)]) + trailer, 2) == Some(Seen(0x0C, index, 0, 0, false, 0, image, 0))
    ensures forall k :: 0 <= k < |cs| ==>
      && Out(cs[k]).logicalStart + Out(cs[k]).size <= |image|
      && RingSlaves(es, image)[k]
         == es[k].(mem := Overlay(es[k].mem, Out(cs[k]).physStart, Region(image, Out(cs[k]))))
    ensures forall k :: 0 <= k < |cs| ==>
      && In(cs[k]).logicalStart + In(cs[k]).size <= |image| && In(cs[k]).physStart + In(cs[k]).size <= MEM
      && Region(Exchanged(es, cs, image, index, trailer), In(cs[k])) == Area(es[k].mem, In(cs[k]))
    ensures forall i :: 0 <= i < |image| && NotInput(i, cs) ==>
      Exchanged(es, cs, image, index, trailer)[i] == image[i]
  {
    FrameTaken(image, index, trailer);
    ReturnedParses(es, image, index, trailer);
    hide SlaveReads;
    forall k | 0 <= k < |cs|
      ensures && Out(cs[k]).logicalStart + Out(cs[k]).size <= |image|
              && RingSlaves(es, image)[k]
                 == es[k].(mem := Overlay(es[k].mem, Out(cs[k]).physStart, Region(image, Out(cs[k]))))
    {
      RingDelivers(es, cs, image, k);
    }
    forall k | 0 <= k < |cs|
      ensures && In(cs[k]).logicalStart + In(cs[k]).size <= |image| && In(cs[k]).physStart + In(cs[k]).size <= MEM
              && Region(Exchanged(es, cs, image, index, trailer), In(cs[k])) == Area(es[k].mem, In(cs[k]))
    {
      InputsArrive(es, cs, image, index, trailer, k);
    }
    forall i | 0 <= i < |image| && NotInput(i, cs)
      ensures Exchanged(es, cs, image, index, trailer)[i] == image[i]
    {
      CoveredIff(cs, i);
      ApplyKeeps(image, InputRanges(AllFmmus(cs)), RingData(es, image), i);
    }
  }

  lemma FrameTaken(image: seq<byte>, index: byte, trailer: seq<byte>)
    requires |image| <= MAX_IMAGE
    ensures SlaveReads(Frame([LrwOf(image, index)]) + trailer, 2) == Some(Seen(0x0C, index, 0, 0, false, 0, image, 0))
  {
    var ds := [LrwOf(image, index)];
    SlaveReadsFrame(ds, trailer, 0);
    assert ds[..0] == [] && Offset(ds, 0) == 2;
  }

  lemma InputsArrive(es: seq<Slave>, cs: seq<GenCfg>, image: seq<byte>, index: byte, trailer: seq<byte>, k: nat)
    requires BusOk(es, cs, |image|) && |cs| <= MAX_SLAVES && |image| <= MAX_IMAGE && k < |cs|
    ensures In(cs[k]).logicalStart + In(cs[k]).size <= |image| && In(cs[k]).physStart + In(cs[k]).size <= MEM
    ensures Region(Exchanged(es, cs, image, index, trailer), In(cs[k])) == Area(es[k].mem, In(cs[k]))
  {
    hide BusOk, Exchanged;
    BusBounds(es, cs, |image|, k);
    var l, r := Region(Exchanged(es, cs, image, index, trailer), In(cs[k])), Area(es[k].mem, In(cs[k]));
    forall i | 0 <= i < In(cs[k]).size
      ensures l[i] == r[i]
    {
      InputArrives(es, cs, image, index, trailer, k, i);
    }
  }

  lemma InputArrives(es: seq<Slave>, cs: seq<GenCfg>, image: seq<byte>, index: byte, trailer: seq<byte>, k: nat, i: nat)
    requires BusOk(es, cs, |image|) && |cs| <= MAX_SLAVES && |image| <= MAX_IMAGE
    requires k < |cs| && i < In(cs[k]).size
    ensures In(cs[k]).logicalStart + i < |image|
    ensures Exchanged(es, cs, image, index, trailer)[In(cs[k]).logicalStart + i] == es[k].mem[In(cs[k]).physStart + i]
  {
    ReturnedParses(es, image, index, trailer);
    RingGathers(es, cs, image, k, i);
    var at := In(cs[k]).logicalStart + i;
    assert InRegion(at, In(cs[k]));
    CoveredIff(cs, at);
    ApplyTakes(image, InputRanges(AllFmmus(cs)), RingData(es, image), at);
  }

  /** The counter reads "complete" if and only if no slave has an empty mapping: the domain
      expects 3 per slave, and a mapping of size 0 is never answered. */
  lemma WkcCompleteIff(es: seq<Slave>, cs: seq<GenCfg>, image: seq<byte>, index: byte)
    requires BusOk(es, cs, |image|) && 0 < |cs| <= MAX_SLAVES
    ensures JudgeWkc(Returned(es, image, index).wkc, ExpectedWkc(AllFmmus(cs)) % 0x1_0000) == Complete
      <==> forall c <- cs :: Out(c).size > 0 && In(c).size > 0
  {
    hide BusOk, RingWkc, RingData, InputRanges, ExpectedWkc, EarnedWkc;
    RingWkcIs(es, cs, image, 0);
    RangesOf(cs);
    EarnedIsFullIff(cs);
  }
}
