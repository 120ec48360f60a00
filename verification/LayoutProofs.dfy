/** The partition the generator promises (scripts/generate_ethercat_config.py:163-289):
    slave regions tile the image, pins stay in their slave's region and share no bit. */
module LayoutProofs {
  import opened Bytes
  import opened Config
  import opened ProcessData
  import opened Layout
  import R = LrwRing
  import MotionLink

  // ---- Regions tile the two halves ----

  lemma {:induction false} BasesGrow(ss: seq<SlaveIn>, k: nat)
    requires k <= |ss|
    ensures OutBase(ss[..k]) <= OutBase(ss) && InBase(ss[..k]) <= InBase(ss)
    decreases |ss|
  {
    if k == |ss| {
      assert ss[..k] == ss;
    } else {
      var n := |ss| - 1;
      assert ss[..k] == ss[..n][..k];
      BasesGrow(ss[..n], k);
    }
  }

  lemma BaseStep(ss: seq<SlaveIn>, k: nat)
    requires k < |ss|
    ensures OutBase(ss[..k + 1]) == OutBase(ss[..k]) + OutSize(ss[k])
    ensures InBase(ss[..k + 1]) == InBase(ss[..k]) + InSize(ss[k])
  {
    AllSnoc(ss, k, 0);
  }

  /** The slave whose output region holds byte `b`. */
  function OutOwner(ss: seq<SlaveIn>, b: nat): (k: nat)
    requires b < OutBase(ss)
    ensures k < |ss|
  {
    var n := |ss| - 1;
    if b >= OutBase(ss[..n]) then n else OutOwner(ss[..n], b)
  }

  function InOwner(ss: seq<SlaveIn>, b: nat): (k: nat)
    requires b < InBase(ss)
    ensures k < |ss|
  {
    var n := |ss| - 1;
    if b >= InBase(ss[..n]) then n else InOwner(ss[..n], b)
  }

  /** Every output byte lies in the region of exactly one slave. */
  lemma {:induction false} OutputsTile(ss: seq<SlaveIn>, b: nat, k: nat)
    requires b < OutBase(ss) && k < |ss|
    ensures OutBase(ss[..k]) <= b < OutBase(ss[..k]) + OutSize(ss[k]) <==> k == OutOwner(ss, b)
  {
    var n := |ss| - 1;
    assert ss[..|ss|] == ss;
    BaseStep(ss, k);
    if k < n {
      assert ss[..n][..k] == ss[..k] && ss[..n][..k + 1] == ss[..k + 1];
      BasesGrow(ss[..n], k + 1);
      if b < OutBase(ss[..n]) {
        OutputsTile(ss[..n], b, k);
      }
    }
  }

  /** Every input byte, counted from the end of the outputs, likewise. */
  lemma {:induction false} InputsTile(ss: seq<SlaveIn>, b: nat, k: nat)
    requires b < InBase(ss) && k < |ss|
    ensures InBase(ss[..k]) <= b < InBase(ss[..k]) + InSize(ss[k]) <==> k == InOwner(ss, b)
  {
    var n := |ss| - 1;
    assert ss[..|ss|] == ss;
    BaseStep(ss, k);
    if k < n {
      assert ss[..n][..k] == ss[..k] && ss[..n][..k + 1] == ss[..k + 1];
      BasesGrow(ss[..n], k + 1);
      if b < InBase(ss[..n]) {
        InputsTile(ss[..n], b, k);
      }
    }
  }

  // ---- Pins ----

  /** One sync manager per direction and whole bytes in each. */
  predicate WellFormed(s: SlaveIn) {
    |s.outSms| <= 1 && |s.inSms| <= 1 && SmsBits(s.outSms) % 8 == 0 && SmsBits(s.inSms) % 8 == 0
  }

  /** All pins of `ps` go in direction `dir` and lie in bits `lo .. hi`. */
  predicate Within(ps: seq<PinCfg>, dir: Direction, lo: nat, hi: nat) {
    forall p <- ps :: p.dir == dir && lo <= FirstBit(p) && FirstBit(p) + p.bitLen <= hi
  }

  predicate AllApart(ps: seq<PinCfg>) {
    forall i, j :: 0 <= i < j < |ps| ==> Apart(ps[i], ps[j])
  }

  lemma ApartConcat(a: seq<PinCfg>, b: seq<PinCfg>)
    requires AllApart(a) && AllApart(b)
    requires forall p, q :: p in a && q in b ==> Apart(p, q)
    ensures AllApart(a + b)
  {
    forall i, j | 0 <= i < j < |a + b|
      ensures Apart((a + b)[i], (a + b)[j])
    {
      if i < |a| && j >= |a| {
        assert (a + b)[i] in a && (a + b)[j] in b;
      }
    }
  }

  /** Within one sync manager pins follow one another. */
  lemma {:induction false} SmPinsApart(sm: Sm, cursor: nat, dir: Direction)
    ensures Within(SmPins(sm, cursor, dir), dir, 8 * cursor, 8 * cursor + Bits(sm))
    ensures AllApart(SmPins(sm, cursor, dir))
  {
    if sm != [] {
      var n := |sm| - 1;
      var before, added := SmPins(sm[..n], cursor, dir), PinAt(sm[n], cursor, Bits(sm[..n]), dir);
      SmPinsApart(sm[..n], cursor, dir);
      assert Within(added, dir, 8 * cursor + Bits(sm[..n]), 8 * cursor + Bits(sm));
      ApartConcat(before, added);
    }
  }

  lemma OneSm(sms: seq<Sm>, cursor: nat, dir: Direction)
    requires |sms| <= 1
    ensures Within(SmsPins(sms, cursor, dir), dir, 8 * cursor, 8 * cursor + SmsBits(sms))
    ensures AllApart(SmsPins(sms, cursor, dir))
  {
    if |sms| == 1 {
      assert sms[..0] == [];
      assert SmsPins(sms, cursor, dir) == [] + SmPins(sms[0], cursor, dir);
      SmPinsApart(sms[0], cursor, dir);
    }
  }

  /** Output pins in bytes `outLo .. outHi`, input pins in bytes `inLo .. inHi`. */
  predicate InRegions(ps: seq<PinCfg>, outLo: nat, outHi: nat, inLo: nat, inHi: nat) {
    forall p <- ps ::
      if p.dir == Output then 8 * outLo <= FirstBit(p) && FirstBit(p) + p.bitLen <= 8 * outHi
      else 8 * inLo <= FirstBit(p) && FirstBit(p) + p.bitLen <= 8 * inHi
  }

  /** Outputs below bit `outHi`, inputs from bit `inLo` to `inHi`. */
  predicate Halves(ps: seq<PinCfg>, outHi: nat, inLo: nat, inHi: nat) {
    forall p <- ps ::
      if p.dir == Output then FirstBit(p) + p.bitLen <= outHi else inLo <= FirstBit(p) && FirstBit(p) + p.bitLen <= inHi
  }

  /** The slave's own pins: inside its two regions, apart from each other. */
  lemma SlavePinsApart(s: SlaveIn, outCursor: nat, inCursor: nat)
    requires WellFormed(s) && outCursor + OutSize(s) <= inCursor
    ensures InRegions(SlavePins(s, outCursor, inCursor), outCursor, outCursor + OutSize(s), inCursor,
      inCursor + InSize(s))
    ensures AllApart(SlavePins(s, outCursor, inCursor))
  {
    OneSm(s.outSms, outCursor, Output);
    OneSm(s.inSms, inCursor, Input);
    ApartConcat(SmsPins(s.outSms, outCursor, Output), SmsPins(s.inSms, inCursor, Input));
  }

  lemma HalvesJoin(a: seq<PinCfg>, b: seq<PinCfg>, o: nat, outSize: nat, total: nat, i: nat, inSize: nat)
    requires total <= i && o + outSize <= total
    requires Halves(a, 8 * o, 8 * total, 8 * i) && InRegions(b, o, o + outSize, i, i + inSize)
    ensures Halves(a + b, 8 * (o + outSize), 8 * total, 8 * (i + inSize))
  {
  }

  lemma NoPins(ss: seq<SlaveIn>, total: nat)
    ensures AllApart(AllPins(ss[..0], total))
    ensures Halves(AllPins(ss[..0], total), 8 * OutBase(ss[..0]), 8 * total, 8 * (total + InBase(ss[..0])))
  {
  }

  /** Outputs stay in the output half, inputs in the input half. */
  lemma {:induction false} PinsInHalves(ss: seq<SlaveIn>, k: nat, total: nat)
    requires k <= |ss| && (forall j :: 0 <= j < k ==> WellFormed(ss[j])) && OutBase(ss[..k]) <= total
    ensures Halves(AllPins(ss[..k], total), 8 * OutBase(ss[..k]), 8 * total, 8 * (total + InBase(ss[..k])))
  {
    hide *;
    if k == 0 {
      NoPins(ss, total);
    } else {
      var s, o, i := ss[k - 1], OutBase(ss[..k - 1]), total + InBase(ss[..k - 1]);
      AllSnoc(ss, k - 1, total);
      PinsInHalves(ss, k - 1, total);
      SlavePinsApart(s, o, i);
      HalvesJoin(AllPins(ss[..k - 1], total), SlavePins(s, o, i), o, OutSize(s), total, i, InSize(s));
    }
  }

  /** No two pins of the whole bus share a bit. */
  lemma {:induction false} PinsApart(ss: seq<SlaveIn>, k: nat, total: nat)
    requires k <= |ss| && (forall j :: 0 <= j < k ==> WellFormed(ss[j])) && OutBase(ss[..k]) <= total
    ensures AllApart(AllPins(ss[..k], total))
  {
    hide *;
    if k == 0 {
      NoPins(ss, total);
    } else {
      var s, o, i := ss[k - 1], OutBase(ss[..k - 1]), total + InBase(ss[..k - 1]);
      AllSnoc(ss, k - 1, total);
      PinsApart(ss, k - 1, total);
      PinsInHalves(ss, k - 1, total);
      SlavePinsApart(s, o, i);
      NewSlaveApart(AllPins(ss[..k - 1], total), SlavePins(s, o, i), o, OutSize(s), total, i, InSize(s));
    }
  }

  /** A new slave's pins lie past all earlier ones in both halves. */
  lemma NewSlaveApart(a: seq<PinCfg>, b: seq<PinCfg>, o: nat, outSize: nat, total: nat, i: nat, inSize: nat)
    requires AllApart(a) && AllApart(b) && total <= i && o + outSize <= total
    requires Halves(a, 8 * o, 8 * total, 8 * i) && InRegions(b, o, o + outSize, i, i + inSize)
    ensures AllApart(a + b)
  {
    hide AllApart;
    forall p, q | p in a && q in b
      ensures Apart(p, q)
    {
    }
    ApartConcat(a, b);
  }

  lemma RegionFits(ss: seq<SlaveIn>, k: nat)
    requires k < |ss|
    ensures OutBase(ss[..k]) + OutSize(ss[k]) <= OutBase(ss)
    ensures InBase(ss[..k]) + InSize(ss[k]) <= InBase(ss)
  {
    BaseStep(ss, k);
    BasesGrow(ss, k + 1);
  }

  /** Each pin of slave `k` lies in slave `k`'s region of the image. */
  lemma PinsInOwnRegion(ss: seq<SlaveIn>, k: nat, o: nat, i: nat)
    requires k < |ss| && WellFormed(ss[k]) && o == OutBase(ss[..k]) && i == OutBase(ss) + InBase(ss[..k])
    ensures InRegions(SlavePins(ss[k], o, i), o, o + OutSize(ss[k]), i, i + InSize(ss[k]))
  {
    RegionFits(ss, k);
    SlavePinsApart(ss[k], o, i);
  }

  // ---- Motion fields ----

  /** Fields so far: in order, inside the sample and before image bit `end`. */
  predicate Packed(m: Motion, end: nat) {
    && MotionLink.InOrder(m.fields)
    && forall f <- m.fields :: f.sampleOff + f.len <= m.sampleOff && 8 * (f.imageOff + f.len) <= end
  }

  lemma FieldPacked(m: Motion, e: Entry, cursor: nat, acc: nat)
    requires Packed(m, 8 * cursor + acc) && MotionOk(e, acc)
    ensures Packed(AddField(m, e, cursor, acc), 8 * cursor + acc + e.bits)
  {
    if e.motion {
      var f := StreamField(m.sampleOff, cursor + acc / 8, e.bits / 8);
      forall i, j | 0 <= i < j < |m.fields + [f]|
        ensures (m.fields + [f])[i].sampleOff + (m.fields + [f])[i].len <= (m.fields + [f])[j].sampleOff
        ensures (m.fields + [f])[i].imageOff + (m.fields + [f])[i].len <= (m.fields + [f])[j].imageOff
      {
        if j == |m.fields| {
          assert m.fields[i] in m.fields;
        }
      }
    }
  }

  lemma {:induction false} SmPacked(m: Motion, sm: Sm, k: nat, cursor: nat)
    requires k <= |sm| && Packed(m, 8 * cursor) && SmMotionOk(sm)
    ensures Packed(SmMotion(m, sm[..k], cursor), 8 * cursor + Bits(sm[..k]))
  {
    hide Packed, MotionOk, AddField, SmMotion, Bits, SmPins;
    if k == 0 {
      SmNone(sm, cursor, m);
    } else {
      SmSnoc(sm, k - 1, cursor, Output, m);
      SmPacked(m, sm, k - 1, cursor);
      FieldPacked(SmMotion(m, sm[..k - 1], cursor), sm[k - 1], cursor, Bits(sm[..k - 1]));
    }
  }

  lemma OneSmPacked(m: Motion, s: SlaveIn, cursor: nat)
    requires WellFormed(s) && SlaveMotionOk(s) && Packed(m, 8 * cursor)
    ensures Packed(SmsMotion(m, s.outSms, cursor), 8 * (cursor + OutSize(s)))
  {
    hide Packed, SmMotion, SmMotionOk;
    var sms := s.outSms;
    if |sms| == 1 {
      assert sms[..0] == [] && sms[0][..|sms[0]|] == sms[0];
      SmPacked(m, sms[0], |sms[0]|, cursor);
      assert SmsBits(sms) == SmsBits(sms[..0]) + Bits(sms[0]) && SmsMotion(m, sms[..0], cursor) == m;
      assert 8 * (cursor + OutSize(s)) == 8 * cursor + Bits(sms[0]);
    } else {
      assert OutSize(s) == 0;
    }
  }

  lemma {:induction false} MotionPacked(ss: seq<SlaveIn>, k: nat)
    requires k <= |ss| && forall j :: 0 <= j < k ==> WellFormed(ss[j]) && SlaveMotionOk(ss[j])
    ensures Packed(AllMotion(ss[..k]), 8 * OutBase(ss[..k]))
  {
    hide *;
    if k == 0 {
      NoMotion(ss);
    } else {
      AllSnoc(ss, k - 1, 0);
      MotionPacked(ss, k - 1);
      OneSmPacked(AllMotion(ss[..k - 1]), ss[k - 1], OutBase(ss[..k - 1]));
    }
  }

  lemma NoMotion(ss: seq<SlaveIn>)
    ensures Packed(AllMotion(ss[..0]), 8 * OutBase(ss[..0]))
  {
  }

  /** The streamed fields of every generated layout follow one another in the sample and in
      the image, and stay inside the sample and the outputs. */
  lemma GeneratedFieldsInOrder(ss: seq<SlaveIn>, f: StreamField)
    requires (forall s <- ss :: WellFormed(s) && SlaveMotionOk(s)) && f in AllMotion(ss).fields
    ensures MotionLink.InOrder(AllMotion(ss).fields)
    ensures f.sampleOff + f.len <= AllMotion(ss).sampleOff && f.imageOff + f.len <= OutBase(ss)
  {
    hide AllMotion, OutBase, WellFormed, SlaveMotionOk, MotionLink.InOrder;
    assert ss[..|ss|] == ss;
    MotionPacked(ss, |ss|);
  }

  // ---- Where the generator stops being right ----

  /** The pin of entry `i`. */
  function PinOf(sm: Sm, i: nat, cursor: nat, dir: Direction): PinCfg
    requires i < |sm| && sm[i].pin.Some?
  {
    var acc := Bits(sm[..i]);
    PinCfg(sm[i].pin.value, cursor + acc / 8, acc % 8, sm[i].bits, sm[i].halType, dir)
  }

  /** The pins of a sync manager are those of its entries that have one, each at the bits
      before it. */
  lemma {:induction false} SmPinsAre(sm: Sm, cursor: nat, dir: Direction, p: PinCfg)
    ensures p in SmPins(sm, cursor, dir) <==> exists i ::
      0 <= i < |sm| && sm[i].pin.Some? && p == PinOf(sm, i, cursor, dir)
  {
    if sm == [] {
    } else {
      hide Bits;
      var n := |sm| - 1;
      SmPinsAre(sm[..n], cursor, dir, p);
      forall i | 0 <= i < n && sm[i].pin.Some?
        ensures PinOf(sm[..n], i, cursor, dir) == PinOf(sm, i, cursor, dir)
      {
        assert sm[..n][..i] == sm[..i];
      }
      if p in SmPins(sm[..n], cursor, dir) {
        var i :| 0 <= i < n && sm[..n][i].pin.Some? && p == PinOf(sm[..n], i, cursor, dir);
        assert sm[i].pin.Some? && p == PinOf(sm, i, cursor, dir);
      } else if p in PinAt(sm[n], cursor, Bits(sm[..n]), dir) {
        assert sm[n].pin.Some? && p == PinOf(sm, n, cursor, dir);
      }
      if i :| 0 <= i < |sm| && sm[i].pin.Some? && p == PinOf(sm, i, cursor, dir) {
        if i < n {
          assert sm[..n][i].pin.Some? && p == PinOf(sm[..n], i, cursor, dir);
        }
      }
    }
  }

  lemma PinBits(sm: Sm, i: nat, cursor: nat, dir: Direction)
    requires i < |sm| && sm[i].pin.Some?
    ensures FirstBit(PinOf(sm, i, cursor, dir)) == 8 * cursor + Bits(sm[..i])
    ensures PinOf(sm, i, cursor, dir).bitLen == sm[i].bits && PinOf(sm, i, cursor, dir) in SmPins(sm, cursor, dir)
  {
    SmPinsAre(sm, cursor, dir, PinOf(sm, i, cursor, dir));
    hide Bits, SmPins;
  }

  /** The pins stay within the whole bytes reserved for a sync manager whose last entry has a
      pin exactly if its bits add up to whole bytes. */
  lemma FitsReservedIff(sm: Sm, cursor: nat, dir: Direction)
    requires sm != [] && sm[|sm| - 1].pin.Some?
    ensures Within(SmPins(sm, cursor, dir), dir, 8 * cursor, 8 * (cursor + Bits(sm) / 8)) <==> Bits(sm) % 8 == 0
  {
    SmPinsApart(sm, cursor, dir);
    PinBits(sm, |sm| - 1, cursor, dir);
    hide SmPins, PinOf;
  }

  predicate EntriesApart(a: Sm, i: nat, b: Sm, j: nat)
    requires i < |a| && j < |b|
  {
    Bits(a[..i]) + a[i].bits <= Bits(b[..j]) || Bits(b[..j]) + b[j].bits <= Bits(a[..i])
  }

  lemma PairApart(a: Sm, i: nat, b: Sm, j: nat, cursor: nat, dir: Direction)
    requires i < |a| && j < |b| && a[i].pin.Some? && b[j].pin.Some?
    ensures Apart(PinOf(a, i, cursor, dir), PinOf(b, j, cursor, dir)) <==> EntriesApart(a, i, b, j)
  {
    PinBits(a, i, cursor, dir);
    PinBits(b, j, cursor, dir);
    hide SmPins, Bits, PinOf;
  }

  /** No pin of one table shares a bit with a pin of the other. */
  predicate NoneShared(ps: seq<PinCfg>, qs: seq<PinCfg>) { forall p <- ps, q <- qs :: Apart(p, q) }

  predicate PinnedApart(a: Sm, b: Sm) {
    forall i, j :: 0 <= i < |a| && 0 <= j < |b| && a[i].pin.Some? && b[j].pin.Some? ==> EntriesApart(a, i, b, j)
  }

  /** Two sync managers in one direction restart at the same cursor: their pins share no bit
      exactly if no two of their entries with pins do, counted from the start of each. */
  lemma TwoSmsApartIff(a: Sm, b: Sm, cursor: nat, dir: Direction)
    ensures NoneShared(SmPins(a, cursor, dir), SmPins(b, cursor, dir)) <==> PinnedApart(a, b)
  {
    hide SmPins, PinOf, EntriesApart, Apart;
    if NoneShared(SmPins(a, cursor, dir), SmPins(b, cursor, dir)) {
      forall i, j | 0 <= i < |a| && 0 <= j < |b| && a[i].pin.Some? && b[j].pin.Some?
        ensures EntriesApart(a, i, b, j)
      {
        PairApart(a, i, b, j, cursor, dir);
        PinBits(a, i, cursor, dir);
        PinBits(b, j, cursor, dir);
      }
    }
    if PinnedApart(a, b) {
      forall p, q | p in SmPins(a, cursor, dir) && q in SmPins(b, cursor, dir)
        ensures Apart(p, q)
      {
        SmPinsAre(a, cursor, dir, p);
        SmPinsAre(b, cursor, dir, q);
        var i :| 0 <= i < |a| && a[i].pin.Some? && p == PinOf(a, i, cursor, dir);
        var j :| 0 <= j < |b| && b[j].pin.Some? && q == PinOf(b, j, cursor, dir);
        PairApart(a, i, b, j, cursor, dir);
      }
    }
  }

  /** So wherever both begin with an entry that has a pin, the two tables collide. */
  lemma TwoSmsCollide(a: Sm, b: Sm, cursor: nat, dir: Direction)
    requires a != [] && b != [] && a[0].pin.Some? && b[0].pin.Some? && a[0].bits > 0 && b[0].bits > 0
    ensures !NoneShared(SmPins(a, cursor, dir), SmPins(b, cursor, dir))
  {
    hide NoneShared;
    TwoSmsApartIff(a, b, cursor, dir);
    assert a[..0] == [] && b[..0] == [];
    assert !EntriesApart(a, 0, b, 0);
  }

  // ---- The layout feeds the cyclic exchange ----

  /** The FMMU tables `render` writes out for the resolved bus. */
  ghost predicate Rendered(ss: seq<SlaveIn>, cs: seq<R.GenCfg>) {
    && |cs| == |ss|
    && forall k :: 0 <= k < |ss| ==>
      && R.Out(cs[k]).logicalStart == OutBase(ss[..k]) && R.Out(cs[k]).size == OutSize(ss[k])
      && R.In(cs[k]).logicalStart == OutBase(ss) + InBase(ss[..k]) && R.In(cs[k]).size == InSize(ss[k])
  }

  lemma BasesOrdered(ss: seq<SlaveIn>, k: nat, j: nat)
    requires k < j < |ss|
    ensures InBase(ss[..k]) + InSize(ss[k]) <= InBase(ss[..j])
  {
    assert ss[..j][..k] == ss[..k] && ss[..j][k] == ss[k];
    RegionFits(ss[..j], k);
  }

  lemma RenderedApart(ss: seq<SlaveIn>, cs: seq<R.GenCfg>, k: nat, j: nat)
    requires Rendered(ss, cs) && k < |cs| && j < |cs|
    ensures R.Off(R.Out(cs[k]), R.In(cs[j]))
    ensures k < j ==> R.Off(R.In(cs[k]), R.In(cs[j]))
  {
    RegionFits(ss, k);
    if k < j {
      BasesOrdered(ss, k, j);
    }
  }

  /** On any resolved bus whose slaves hold their pages and whose RAM areas exist, the
      cyclic exchange is sound: the generator's layout meets its precondition. */
  lemma LayoutGivesBus(ss: seq<SlaveIn>, cs: seq<R.GenCfg>, es: seq<R.Slave>)
    requires Rendered(ss, cs) && |es| == |cs|
    requires forall k :: 0 <= k < |cs| ==> R.Configured(es[k], cs[k])
    requires forall c <- cs ::
      && R.RAM <= R.Out(c).physStart && R.Out(c).physStart + R.Out(c).size <= R.MEM
      && R.RAM <= R.In(c).physStart && R.In(c).physStart + R.In(c).size <= R.MEM
    ensures R.BusOk(es, cs, OutBase(ss) + InBase(ss))
  {
    forall k | 0 <= k < |cs|
      ensures R.Placed(cs[k], OutBase(ss) + InBase(ss))
    {
      RegionFits(ss, k);
    }
    forall k, j | 0 <= k < |cs| && 0 <= j < |cs|
      ensures R.Off(R.Out(cs[k]), R.In(cs[j]))
    {
      RenderedApart(ss, cs, k, j);
    }
    forall k, j | 0 <= k < j < |cs|
      ensures R.Off(R.In(cs[k]), R.In(cs[j]))
    {
      RenderedApart(ss, cs, k, j);
    }
  }
}
