/** What one cycle of the engine sends and makes of the answer (src/ethercat/cyclic.rs:400-596). */
module EngineProofs {
  import opened Bytes
  import opened Config
  import opened Datagram
  import opened Domain
  import opened Ecrt
  import opened EngineSpec

  // ---- The ghost link between the bookkeeping and the bytes ----

  /** `kind` is what datagram `d` asks for, in a frame after which the engine stands at `e`: a
      request and the status read that follows it go to the slave at the OP cursor, which is
      not yet in OP; time is taken from the reference clock, drift read at the follower, and
      status polled at the slave at the monitor's cursor. */
  predicate Describes(kind: Appended, d: Dgram, e: Engine) {
    match kind
    case Control => Asks(d, 0x05, 0x0120, [0x08, 0]) && AtCursor(d.adp, e)
    case Status(idx) => Asks(d, 0x04, 0x0130, Zeros(2)) && idx == e.opCursor && AtCursor(d.adp, e)
    case DcArmw => Asks(d, 0x0D, 0x0910, Zeros(8)) && d.adp == AutoincAdp(e.refRingPos)
    case DcDiff => Asks(d, 0x04, 0x092C, Zeros(4)) && IsFollower(d.adp, e.slaves, e.refRingPos)
    case AlPoll =>
      Asks(d, 0x04, 0x0130, Zeros(2)) && e.monCursor < |e.slaves| && d.adp == e.slaves[e.monCursor].station
  }

  predicate Asks(d: Dgram, cmd: byte, ado: word, payload: seq<byte>) {
    d.cmd == cmd && d.ado == ado && d.payload == payload && d.wkc == 0
  }

  predicate AtCursor(station: word, e: Engine) {
    e.opCursor < |e.slaves| && !e.slaves[e.opCursor].reachedOp && station == e.slaves[e.opCursor].station
  }

  /** The first slave that is not the reference, or, where all are, the first slave. */
  predicate IsFollower(station: word, slaves: seq<SlaveRt>, refRingPos: word) {
    exists i :: 0 <= i < |slaves| && station == slaves[i].station && FirstFollower(slaves, refRingPos, i)
  }

  predicate FirstFollower(slaves: seq<SlaveRt>, refRingPos: word, i: nat)
    requires i < |slaves|
  {
    || (slaves[i].ringPos != refRingPos && forall j :: 0 <= j < i ==> slaves[j].ringPos == refRingPos)
    || (i == 0 && forall s <- slaves :: s.ringPos == refRingPos)
  }

  lemma {:induction false} FollowerFromIs(slaves: seq<SlaveRt>, refRingPos: word, default: word) returns (i: nat)
    ensures i <= |slaves| && forall j :: 0 <= j < i ==> slaves[j].ringPos == refRingPos
    ensures i < |slaves| ==>
      slaves[i].ringPos != refRingPos && FollowerFrom(slaves, refRingPos, default) == slaves[i].station
    ensures i == |slaves| ==> FollowerFrom(slaves, refRingPos, default) == default
  {
    if slaves == [] || slaves[0].ringPos != refRingPos {
      i := 0;
    } else {
      i := FollowerFromIs(slaves[1..], refRingPos, default);
      i := i + 1;
    }
  }

  lemma FollowerIsFirst(slaves: seq<SlaveRt>, refRingPos: word)
    requires slaves != []
    ensures IsFollower(FollowerStation(slaves, refRingPos), slaves, refRingPos)
    ensures |slaves| == 1 ==> FollowerStation(slaves, refRingPos) == slaves[0].station
  {
    var i := FollowerFromIs(slaves, refRingPos, slaves[0].station);
    assert FirstFollower(slaves, refRingPos, if i < |slaves| then i else 0);
  }

  predicate TailDescribed(t: Built) {
    && |t.e.appended| == |t.dgs| <= 2
    && forall k :: 0 <= k < |t.dgs| ==> Describes(t.e.appended[k], t.dgs[k], t.e)
  }

  lemma RequestIsDescribed(e: Engine, index: byte)
    requires e.appended == []
    ensures TailDescribed(BuildOpRequest(e, index))
  {
    hide SkipReached, Zeros;
  }

  lemma MonitorIsDescribed(e: Engine, index: byte)
    requires e.appended == []
    ensures TailDescribed(BuildMonitor(e, index))
  {
    hide FollowerStation, IsFollower, AutoincAdp, Zeros;
    if e.slaves != [] {
      FollowerIsFirst(e.slaves, e.refRingPos);
    }
  }

  lemma TailIsDescribed(e: Engine, index: byte)
    requires e.appended == []
    ensures TailDescribed(BuildTail(e, index))
  {
    hide BuildOpRequest, BuildMonitor;
    RequestIsDescribed(e, index);
    MonitorIsDescribed(e, index);
  }

  /** In every frame sent, the k-th bookkeeping entry describes the k-th datagram after the
      LRW, so nothing is ever decoded as something else. */
  lemma SentIsDescribed(e: Engine, index: byte, accepted: bool)
    ensures var b := Send(e, index, accepted);
      && |b.dgs| == 1 + |b.e.appended| <= MAX_APPENDED
      && b.dgs[0] == LrwOf(e.image, index) && b.e.expectedIndex == index && b.e.slaves == e.slaves
      && forall k :: 0 <= k < |b.e.appended| ==> Describes(b.e.appended[k], b.dgs[k + 1], b.e)
  {
    hide Describes, BuildTail;
    var e1 := e.(expectedIndex := index, appended := []);
    TailIsDescribed(e1, NextIndex(index));
    TailSlaves(e1, NextIndex(index));
    var t := BuildTail(e1, NextIndex(index));
    var b := Send(e, index, accepted);
    forall k | 0 <= k < |b.e.appended|
      ensures Describes(b.e.appended[k], b.dgs[k + 1], b.e)
    {
      assert b.dgs[k + 1] == t.dgs[k];
      SentOrNot(t.e.appended[k], t.dgs[k], t.e, accepted);
    }
  }

  lemma TailSlaves(e: Engine, index: byte)
    ensures BuildTail(e, index).e.slaves == e.slaves && BuildTail(e, index).e.expectedIndex == e.expectedIndex
  {
    hide SkipReached, FollowerStation, Read;
  }

  /** Whether the frame was taken does not bear on what it asks. */
  lemma SentOrNot(kind: Appended, d: Dgram, e: Engine, accepted: bool)
    requires Describes(kind, d, e)
    ensures Describes(kind, d, e.(outstanding := accepted))
  {
  }

  /** The whole frame fits the transmit buffer and the 11-bit region length. */
  lemma SentFits(e: Engine, index: byte, accepted: bool)
    requires |e.image| <= MAX_IMAGE
    ensures var b := Send(e, index, accepted);
      Fits(b.dgs) && |Frame(b.dgs)| <= 562 < CYCLIC_BUF && FRAME_HEADER + Datagram.Region(b.dgs) <= 562
  {
    SentIsDescribed(e, index, accepted);
    var dgs := Send(e, index, accepted).dgs;
    RegionOfThree(dgs);
    TailSizes(e, index, accepted);
  }

  lemma TailSizes(e: Engine, index: byte, accepted: bool)
    ensures var dgs := Send(e, index, accepted).dgs;
      && |dgs| <= 3 && (|dgs| > 1 ==> |dgs[1].payload| <= 8) && (|dgs| > 2 ==> |dgs[2].payload| <= 4)
  {
  }

  lemma RegionOfThree(dgs: seq<Dgram>)
    requires 1 <= |dgs| <= 3
    ensures Datagram.Region(dgs) == dgs[0].Size() + (if |dgs| > 1 then dgs[1].Size() else 0) + (if |dgs| > 2
      then dgs[2].Size() else 0)
  {
    if |dgs| > 2 {
      assert dgs[1..][1..] == dgs[2..];
    }
  }

  /** What every slave on the ring takes from a frame sent: first, a logical read and write of
      the whole image from logical address zero on. */
  lemma SentToSlaves(e: Engine, index: byte, accepted: bool, trailer: seq<byte>)
    requires |e.image| <= MAX_IMAGE
    ensures var dgs := Send(e, index, accepted).dgs;
      SlaveReads(Frame(dgs) + trailer, 2) == Some(Seen(0x0C, index, 0, 0, |dgs| > 1, 0, e.image, 0))
  {
    hide Send, SlaveReads, Frame;
    SentIsDescribed(e, index, accepted);
    SentFits(e, index, accepted);
    var dgs := Send(e, index, accepted).dgs;
    SlaveReadsFrame(dgs, trailer, 0);
    assert dgs[..0] == [] && Offset(dgs, 0) == 2;
  }

  /** A reply frame with the datagrams of the sent one: only payload bytes and working
      counters may differ. */
  predicate SameShape(sent: seq<Dgram>, got: seq<Dgram>) {
    && |sent| == |got|
    && forall k :: 0 <= k < |sent| ==>
      got[k].cmd == sent[k].cmd && got[k].index == sent[k].index && |got[k].payload| == |sent[k].payload|
  }

  /** The actions a shape-preserving reply stands for. */
  function Actions(kinds: seq<Appended>, got: seq<Dgram>): (acts: seq<Applied>)
    requires |got| == |kinds| + 1
    ensures |acts| == |kinds|
  {
    seq(|kinds|, k requires 0 <= k < |kinds| => DecodeAppended(kinds[k], ReplyOf(got[k + 1])))
  }

  lemma {:induction false} DecodeFrom(kinds: seq<Appended>, got: seq<Dgram>, trailer: seq<byte>, k: nat)
    requires |got| == |kinds| + 1 && Fits(got) && k <= |kinds|
    ensures DecodeTail(kinds[k..], Frame(got) + trailer, if k < |kinds| then Offset(got, k + 1) else 0)
      == Actions(kinds, got)[k..]
    decreases |kinds| - k
  {
    hide Frame, ParseAt, Offset, DecodeAppended, DecodeTail, Fits, Actions;
    if k == |kinds| {
      NothingToDecode(Frame(got) + trailer);
      assert kinds[k..] == [] && Actions(kinds, got)[k..] == [];
    } else {
      var frame, next := Frame(got) + trailer, if k + 1 < |kinds| then Offset(got, k + 2) else 0;
      ParseInFrame(got, trailer, k + 1);
      OffsetPositive(got, k + 1);
      DecodeFrom(kinds, got, trailer, k + 1);
      assert kinds[k..][1..] == kinds[k + 1..];
      DecodeStep(kinds[k..], frame, Offset(got, k + 1), ReplyOf(got[k + 1]), next);
      ActionsFrom(kinds, got, k);
    }
  }

  lemma NothingToDecode(frame: seq<byte>)
    ensures DecodeTail([], frame, 0) == []
  {
  }

  lemma ActionsFrom(kinds: seq<Appended>, got: seq<Dgram>, k: nat)
    requires |got| == |kinds| + 1 && k < |kinds|
    ensures Actions(kinds, got)[k..] == [DecodeAppended(kinds[k], ReplyOf(got[k + 1]))] + Actions(kinds, got)[k + 1..]
  {
  }

  lemma OffsetPositive(got: seq<Dgram>, k: nat)
    requires k <= |got|
    ensures Offset(got, k) > 0
  {
  }

  lemma DecodeStep(kinds: seq<Appended>, frame: seq<byte>, off: nat, dg: Reply, next: nat)
    requires kinds != [] && off != 0 && ParseAt(frame, off) == Some((dg, next))
    ensures DecodeTail(kinds, frame, off) == [DecodeAppended(kinds[0], dg)] + DecodeTail(kinds[1..], frame, next)
  {
  }

  /** A shape-preserving reply is decoded position by position against the right kinds. */
  lemma ReplyDecoded(ranges: seq<(nat, nat)>, e: Engine, got: seq<Dgram>, trailer: seq<byte>)
    requires |got| == |e.appended| + 1 && Fits(got)
    ensures Process(ranges, e, Frame(got) + trailer)
      == OpGate(ApplyActions(
           Gate(e.(image := ApplyRanges(e.image, ranges, got[0].payload), lastWkc := got[0].wkc), got[0].wkc),
           Actions(e.appended, got)))
  {
    var frame, next := Frame(got) + trailer, if 0 < |e.appended| then Offset(got, 1) else 0;
    assert ParseAt(frame, FRAME_HEADER) == Some((ReplyOf(got[0]), next)) by {
      ParseInFrame(got, trailer, 0);
      assert got[..0] == [];
    }
    DecodeFrom(e.appended, got, trailer, 0);
    assert e.appended[0..] == e.appended && Actions(e.appended, got)[0..] == Actions(e.appended, got);
  }
}
