/** Whole runs of the cyclic engine (src/ethercat/cyclic.rs:262-271, 383-519): which replies are
    taken, and what each phase rests on. */
module EngineRuns {
  import opened Bytes
  import opened Config
  import opened Datagram
  import opened Domain
  import opened Device
  import opened Ecrt
  import opened EngineSpec
  import opened EngineProofs

  /** Datagram `k` of a frame that was sent, and the reply that stood in its place in the
      answer to that frame. */
  datatype Told = Told(sent: seq<Dgram>, k: nat, reply: Reply)

  /** What the run so far has seen on the wire: the working counters of the LRW replies
      received, and every other datagram sent that was answered, with its reply. */
  datatype Hist = Hist(wkcs: seq<word>, told: seq<Told>)

  /** An AL-status reply that says "in OP, no error". */
  predicate SaysOp(dg: Reply) { dg.wkc > 0 && !AlError(FirstByte(dg.data)) && AlState(FirstByte(dg.data)) == OP }

  /** The replies that fault the bus: a bad status, answered. */
  predicate MeansFault(kind: Appended, dg: Reply) {
    dg.wkc > 0 && (|| (kind.Status? && AlError(FirstByte(dg.data)))
                   || (kind.AlPoll? && (AlError(FirstByte(dg.data)) || AlState(FirstByte(dg.data)) != OP)))
  }

  /** A read of the AL status of one slave, by its station. */
  predicate AsksStatus(t: Told, station: word) {
    t.k < |t.sent| && Asks(t.sent[t.k], 0x04, 0x0130, Zeros(2)) && t.sent[t.k].adp == station
  }

  /** A frame that also distributes the time, as only an operational engine sends. */
  predicate Monitors(sent: seq<Dgram>) { |sent| > 1 && sent[1].cmd == 0x0D }

  /** A status read to this slave, answered: in OP, without an error. */
  predicate TellsOp(t: Told, station: word) { AsksStatus(t, station) && SaysOp(t.reply) }

  /** A status read to this slave, answered: an error, or, once operational, another state. */
  predicate TellsFault(t: Told, station: word) {
    AsksStatus(t, station) && t.reply.wkc > 0
    && (AlError(FirstByte(t.reply.data)) || (Monitors(t.sent) && AlState(FirstByte(t.reply.data)) != OP))
  }

  ghost predicate ShownOp(told: seq<Told>, station: word) { exists t :: t in told && TellsOp(t, station) }

  ghost predicate ShownFault(told: seq<Told>, slaves: seq<SlaveRt>) {
    exists t, s :: t in told && s in slaves && TellsFault(t, s.station)
  }

  /** The replies `DecodeTail` pairs with the appended kinds. */
  function TailReplies(kinds: seq<Appended>, frame: seq<byte>, next: nat): (rs: seq<(Appended, Reply)>)
    decreases |kinds|
  {
    if kinds == [] || next == 0 then []
    else
      match ParseAt(frame, next)
      case None => []
      case Some((dg, n2)) => [(kinds[0], dg)] + TailReplies(kinds[1..], frame, n2)
  }

  function Decoded(rs: seq<(Appended, Reply)>): (acts: seq<Applied>)
    ensures |acts| == |rs|
  {
    seq(|rs|, i requires 0 <= i < |rs| => DecodeAppended(rs[i].0, rs[i].1))
  }

  lemma {:induction false} TailIsDecoded(kinds: seq<Appended>, frame: seq<byte>, next: nat)
    ensures DecodeTail(kinds, frame, next) == Decoded(TailReplies(kinds, frame, next))
    decreases |kinds|
  {
    if kinds == [] || next == 0 {
    } else {
      match ParseAt(frame, next)
      case None =>
      case Some((dg, n2)) =>
        TailIsDecoded(kinds[1..], frame, n2);
        var rs := TailReplies(kinds[1..], frame, n2);
        assert Decoded([(kinds[0], dg)] + rs) == [DecodeAppended(kinds[0], dg)] + Decoded(rs);
    }
  }

  /** What a reply must say to move the engine. */
  lemma DecodeMeaning(kind: Appended, dg: Reply, idx: nat)
    ensures DecodeAppended(kind, dg) == OpReached(idx) <==> kind == Status(idx) && SaysOp(dg)
    ensures DecodeAppended(kind, dg) == Fault <==> MeansFault(kind, dg)
    ensures dg.wkc == 0 ==> DecodeAppended(kind, dg) == Nothing
  {
  }

  /** The frame a cycle takes as its reply, if one arrives among the polls. */
  function Taken(expected: byte, ring: seq<RxFrame>, tries: nat): Option<seq<byte>>
    decreases tries
  {
    if tries == 0 || ring == [] then None
    else
      var p := Polled(ring[0], CYCLIC_BUF);
      if p == [] then None
      else if |p| >= 4 && p[3] == expected then Some(p)
      else Taken(expected, ring[1..], tries - 1)
  }

  /** A polled payload under the index of the frame last sent. */
  predicate Expected(p: seq<byte>, expected: byte) { |p| >= 4 && p[3] == expected }

  /** A poll comes up empty on an idle ring, and also on a frame that is not EtherCAT. */
  predicate Empty(f: RxFrame) { f.Silence? || f.Foreign? || f == EtherCat([]) }

  lemma EmptyIff(f: RxFrame)
    ensures Empty(f) <==> Polled(f, CYCLIC_BUF) == []
  {
  }

  /** The expected reply, first of its index in the ring, is taken in this cycle exactly if it
      is within reach of the polls and none of the polls before it comes up empty: a frame that
      is not EtherCAT in front of it ends the reception. */
  lemma {:induction false} ReplyTakenIff(expected: byte, ring: seq<RxFrame>, tries: nat, k: nat)
    requires k < |ring| && Expected(Polled(ring[k], CYCLIC_BUF), expected)
    requires forall j :: 0 <= j < k ==> !Expected(Polled(ring[j], CYCLIC_BUF), expected)
    ensures Taken(expected, ring, tries) == Some(Polled(ring[k], CYCLIC_BUF))
      <==> k < tries && forall j :: 0 <= j < k ==> !Empty(ring[j])
    ensures Taken(expected, ring, tries).Some? ==> Taken(expected, ring, tries) == Some(Polled(ring[k], CYCLIC_BUF))
    decreases tries
  {
    hide Polled, Empty;
    EmptyIff(ring[0]);
    if tries > 0 && k > 0 && !Empty(ring[0]) {
      assert ring[1..][k - 1] == ring[k];
      assert forall j :: 0 <= j < k - 1 ==> ring[1..][j] == ring[j + 1];
      ReplyTakenIff(expected, ring[1..], tries - 1, k - 1);
      if forall j :: 0 <= j < k - 1 ==> !Empty(ring[1..][j]) {
        forall j | 0 <= j < k
          ensures !Empty(ring[j])
        {
          assert j > 0 ==> ring[j] == ring[1..][j - 1];
        }
      }
    }
  }

  /** So the same reply is taken alone and missed behind a foreign frame. */
  lemma ForeignFirst(p: seq<byte>, expected: byte)
    requires Expected(Polled(EtherCat(p), CYCLIC_BUF), expected)
    ensures Taken(expected, [EtherCat(p)], RX_LEN) == Some(Polled(EtherCat(p), CYCLIC_BUF))
    ensures Taken(expected, [Foreign, EtherCat(p)], RX_LEN) == None
  {
    ReplyTakenIff(expected, [EtherCat(p)], RX_LEN, 0);
    ReplyTakenIff(expected, [Foreign, EtherCat(p)], RX_LEN, 1);
  }

  lemma {:induction false} ReceiveIsProcess(ranges: seq<(nat, nat)>, e: Engine, ring: seq<RxFrame>, tries: nat)
    ensures Receive(ranges, e, ring, tries).0
      == match Taken(e.expectedIndex, ring, tries) case Some(p) => Process(ranges, e, p) case None => e
    decreases tries
  {
    if tries == 0 || ring == [] {
    } else {
      ReceiveIsProcess(ranges, e, ring[1..], tries - 1);
    }
  }

  /** The replies from `next` on stand for the datagrams of `sent` from `k` on, for as long as
      the frame goes on. */
  function Answers(sent: seq<Dgram>, k: nat, frame: seq<byte>, next: nat): (ts: seq<Told>)
    requires k <= |sent|
    decreases |sent| - k
  {
    if k == |sent| || next == 0 then []
    else
      match ParseAt(frame, next)
      case None => []
      case Some((dg, n2)) => [Told(sent, k, dg)] + Answers(sent, k + 1, frame, n2)
  }

  function ObserveFrame(h: Hist, sent: seq<Dgram>, frame: seq<byte>): Hist
    requires sent != []
  {
    match ParseAt(frame, FRAME_HEADER)
    case None => h
    case Some((lrw, next)) => Hist(h.wkcs + [lrw.wkc], h.told + Answers(sent, 1, frame, next))
  }

  /** What a cycle sees, when `b` was sent last. */
  function Observe(h: Hist, b: Built, ring: seq<RxFrame>): Hist {
    if !b.e.outstanding || b.dgs == [] then h
    else match Taken(b.e.expectedIndex, ring, RX_LEN)
      case None => h
      case Some(p) => ObserveFrame(h, b.dgs, p)
  }

  /** The engine's own bookkeeping pairs the replies as the datagrams sent do. */
  lemma {:induction false} AnswersMatch(kinds: seq<Appended>, sent: seq<Dgram>, k: nat, frame: seq<byte>, next: nat)
    requires k <= |sent| && |kinds| == |sent| - k
    ensures var rs, ts := TailReplies(kinds, frame, next), Answers(sent, k, frame, next);
      && |rs| == |ts| <= |kinds|
      && forall i :: 0 <= i < |rs| ==> rs[i].0 == kinds[i] && ts[i] == Told(sent, k + i, rs[i].1)
    decreases |kinds|
  {
    hide ParseAt;
    if kinds == [] || next == 0 {
    } else {
      match ParseAt(frame, next)
      case None =>
      case Some((dg, n2)) =>
        AnswersMatch(kinds[1..], sent, k + 1, frame, n2);
    }
  }

  // ---- What each phase rests on ----

  /** How many of the last received LRW replies in a row were answered. */
  function Streak(wkcs: seq<word>): nat {
    if wkcs == [] || wkcs[|wkcs| - 1] == 0 then 0 else 1 + Streak(wkcs[..|wkcs| - 1])
  }

  /** At some point three received LRW replies in a row had a positive working counter. */
  ghost predicate ThreeInARow(wkcs: seq<word>) {
    exists k :: 0 <= k && k + 3 <= |wkcs| && wkcs[k] > 0 && wkcs[k + 1] > 0 && wkcs[k + 2] > 0
  }

  /** What is outstanding is what the bookkeeping describes. */
  predicate Kept(b: Built) {
    b.e.outstanding ==>
      && |b.dgs| == 1 + |b.e.appended|
      && (forall k :: 0 <= k < |b.e.appended| ==> Describes(b.e.appended[k], b.dgs[k + 1], b.e))
      && (forall k :: 0 <= k < |b.e.appended| && b.e.appended[k].AlPoll? ==> Monitors(b.dgs))
  }

  ghost predicate Inv(e: Engine, h: Hist) {
    && e.goodCycles <= Streak(h.wkcs)
    && (e.phase == Priming ==> e.appended == [])
    && (e.phase != Priming ==> ThreeInARow(h.wkcs))
    && (forall i :: 0 <= i < |e.slaves| && e.slaves[i].reachedOp ==> ShownOp(h.told, e.slaves[i].station))
    && (e.phase == Operational ==> AllReached(e.slaves))
    && (e.phase == Faulted ==> ShownFault(h.told, e.slaves))
  }

  lemma {:induction false} StreakOfThree(wkcs: seq<word>)
    requires Streak(wkcs) >= 3
    ensures ThreeInARow(wkcs)
  {
    var n := |wkcs|;
    assert Streak(wkcs[..n - 1]) >= 2 && Streak(wkcs[..n - 1][..n - 2]) >= 1;
    assert wkcs[..n - 1][n - 2] > 0 && wkcs[..n - 1][..n - 2][n - 3] > 0;
    assert wkcs[n - 3] > 0 && wkcs[n - 3 + 1] > 0 && wkcs[n - 3 + 2] > 0;
  }

  lemma ThreeStays(wkcs: seq<word>, w: word)
    requires ThreeInARow(wkcs)
    ensures ThreeInARow(wkcs + [w])
  {
    var k :| 0 <= k && k + 3 <= |wkcs| && wkcs[k] > 0 && wkcs[k + 1] > 0 && wkcs[k + 2] > 0;
    assert (wkcs + [w])[k] > 0 && (wkcs + [w])[k + 1] > 0 && (wkcs + [w])[k + 2] > 0;
  }

  // ---- Applying the decoded actions ----

  /** Everything but phase, OP flags and the DC telemetry. */
  predicate SameCore(e: Engine, f: Engine) {
    && f.image == e.image && f.lastWkc == e.lastWkc && |f.slaves| == |e.slaves| && f.refRingPos == e.refRingPos
    && f.outstanding == e.outstanding && f.expectedIndex == e.expectedIndex && f.goodCycles == e.goodCycles
    && f.totalCycles == e.totalCycles && f.appended == e.appended && f.opCursor == e.opCursor && f.opCtrl == e.opCtrl
    && f.monToggle == e.monToggle && f.monCursor == e.monCursor
  }

  /** Actions touch nothing but phase, OP flags and telemetry, and raise the phase to
      `Faulted` exactly on a fault. */
  lemma {:induction false} ActionsCore(e: Engine, acts: seq<Applied>)
    ensures SameCore(e, ApplyActions(e, acts))
    ensures ApplyActions(e, acts).phase == if Fault in acts then Faulted else e.phase
    decreases |acts|
  {
    if acts == [] {
    } else {
      var e1 := ApplyAction(e, acts[0]);
      ActionCore(e, acts[0]);
      ActionsCore(e1, acts[1..]);
      assert acts == [acts[0]] + acts[1..];
      hide ApplyAction;
      CoreTrans(e, e1, ApplyActions(e1, acts[1..]));
      hide SameCore;
    }
  }

  lemma ActionCore(e: Engine, a: Applied)
    ensures SameCore(e, ApplyAction(e, a))
    ensures ApplyAction(e, a).phase == if a == Fault then Faulted else e.phase
  {
    hide Abs;
  }

  lemma CoreTrans(e: Engine, f: Engine, g: Engine)
    requires SameCore(e, f) && SameCore(f, g)
    ensures SameCore(e, g)
  {
  }

  /** A slave's OP flag is set exactly by its own `OpReached`. */
  lemma {:induction false} ActionsFlags(e: Engine, acts: seq<Applied>, i: nat)
    requires i < |e.slaves|
    ensures var e' := ApplyActions(e, acts);
      |e'.slaves| == |e.slaves| && e'.slaves[i]
        == e.slaves[i].(reachedOp := e.slaves[i].reachedOp || OpReached(i) in acts)
    decreases |acts|
  {
    if acts == [] {
    } else {
      ActionsFlags(ApplyAction(e, acts[0]), acts[1..], i);
      assert acts == [acts[0]] + acts[1..];
    }
  }

  predicate DriftIn(acts: seq<Applied>, v: int) { Drift(v) in acts }

  lemma DriftStep(e: Engine, a: Applied)
    ensures var f := ApplyAction(e, a);
      if a.Drift? then f.dcDiff == a.v && f.dcDiffMax == if Abs(a.v) > Abs(e.dcDiffMax) then a.v else e.dcDiffMax
      else f.dcDiff == e.dcDiff && f.dcDiffMax == e.dcDiffMax
  {
  }

  /** The largest drift shown is the largest by magnitude of those read and the one shown
      before. */
  lemma {:induction false} LargestDrift(e: Engine, acts: seq<Applied>)
    ensures var m := ApplyActions(e, acts).dcDiffMax;
      && (m == e.dcDiffMax || DriftIn(acts, m)) && Abs(e.dcDiffMax) <= Abs(m)
      && forall v :: DriftIn(acts, v) ==> Abs(v) <= Abs(m)
    decreases |acts|
  {
    hide ApplyAction;
    if acts == [] {
    } else {
      DriftStep(e, acts[0]);
      LargestDrift(ApplyAction(e, acts[0]), acts[1..]);
      assert acts == [acts[0]] + acts[1..];
      forall v
        ensures DriftIn(acts, v) <==> acts[0] == Drift(v) || DriftIn(acts[1..], v)
      {
      }
    }
  }

  /** The drift shown is the last one read. */
  lemma {:induction false} LastDrift(e: Engine, acts: seq<Applied>, k: nat)
    requires k < |acts| && acts[k].Drift? && forall i :: k < i < |acts| ==> !acts[i].Drift?
    ensures ApplyActions(e, acts).dcDiff == acts[k].v
    decreases |acts|
  {
    hide ApplyAction;
    DriftStep(e, acts[0]);
    if k > 0 {
      LastDrift(ApplyAction(e, acts[0]), acts[1..], k - 1);
    } else {
      NoDrift(ApplyAction(e, acts[0]), acts[1..]);
    }
  }

  lemma {:induction false} NoDrift(e: Engine, acts: seq<Applied>)
    requires forall i :: 0 <= i < |acts| ==> !acts[i].Drift?
    ensures ApplyActions(e, acts).dcDiff == e.dcDiff
    decreases |acts|
  {
    hide ApplyAction;
    if acts != [] {
      DriftStep(e, acts[0]);
      NoDrift(ApplyAction(e, acts[0]), acts[1..]);
    }
  }

  lemma {:induction false} NoActions(rs: seq<(Appended, Reply)>, a: Applied)
    ensures a in Decoded(rs) <==> exists r :: r in rs && DecodeAppended(r.0, r.1) == a
  {
    if a in Decoded(rs) {
      var i :| 0 <= i < |rs| && Decoded(rs)[i] == a;
      assert rs[i] in rs;
    }
    if r :| r in rs && DecodeAppended(r.0, r.1) == a {
      var i :| 0 <= i < |rs| && rs[i] == r;
      assert Decoded(rs)[i] == a;
    }
  }

  /** A received frame keeps the invariant: each new phase has its evidence. */
  lemma ProcessKeepsInv(ranges: seq<(nat, nat)>, e: Engine, sent: seq<Dgram>, h: Hist, frame: seq<byte>)
    requires Inv(e, h) && Kept(Built(e, sent, 0)) && e.outstanding
    ensures Inv(Process(ranges, e, frame), ObserveFrame(h, sent, frame))
  {
    match ParseAt(frame, FRAME_HEADER)
    case None =>
    case Some((lrw, next)) =>
      var rs, ts := TailReplies(e.appended, frame, next), Answers(sent, 1, frame, next);
      TailIsDecoded(e.appended, frame, next);
      AnswersMatch(e.appended, sent, 1, frame, next);
      var e1 := Gate(e.(image := ApplyRanges(e.image, ranges, lrw.data), lastWkc := lrw.wkc), lrw.wkc);
      GateEvidence(e, h, lrw.wkc);
      hide TailReplies, Answers, ParseAt, Streak, ThreeInARow;
      forall i | 0 <= i < |rs|
        ensures Evident(rs[i], ts[i], e1.slaves)
      {
        TellsWhat(e, sent, rs[i], ts[i], i);
      }
      ActionsEvidence(e1, h, rs, ts, lrw.wkc);
  }

  /** A reply the engine acts upon tells what it takes it for, about the slave it concerns. */
  ghost predicate Evident(r: (Appended, Reply), t: Told, slaves: seq<SlaveRt>) {
    && (r.0.Status? && SaysOp(r.1) ==> r.0.idx < |slaves| && TellsOp(t, slaves[r.0.idx].station))
    && (MeansFault(r.0, r.1) ==> exists s :: s in slaves && TellsFault(t, s.station))
  }

  lemma TellsWhat(e: Engine, sent: seq<Dgram>, r: (Appended, Reply), t: Told, i: nat)
    requires Kept(Built(e, sent, 0)) && e.outstanding && i < |e.appended|
    requires r.0 == e.appended[i] && t == Told(sent, 1 + i, r.1)
    ensures Evident(r, t, e.slaves)
  {
    hide AlError, AlState, FirstByte, IsFollower;
    assert Describes(e.appended[i], sent[i + 1], e);
    if MeansFault(r.0, r.1) {
      var at := if r.0.Status? then e.opCursor else e.monCursor;
      assert e.slaves[at] in e.slaves && TellsFault(t, e.slaves[at].station);
    }
  }

  lemma GateEvidence(e: Engine, h: Hist, wkc: word)
    requires Inv(e, h)
    ensures var e1 := Gate(e, wkc);
      && e1.goodCycles <= Streak(h.wkcs + [wkc])
      && (e1.phase != Priming ==> ThreeInARow(h.wkcs + [wkc]))
  {
    assert (h.wkcs + [wkc])[..|h.wkcs|] == h.wkcs;
    if e.phase != Priming {
      ThreeStays(h.wkcs, wkc);
    } else if Gate(e, wkc).phase != Priming {
      StreakOfThree(h.wkcs + [wkc]);
    }
  }

  /** `e1` is the engine after the gate: the actions decoded from `rs` add OP flags and
      faults only with a reply that says so. */
  lemma ActionsEvidence(e1: Engine, h: Hist, rs: seq<(Appended, Reply)>, ts: seq<Told>, wkc: word)
    requires e1.goodCycles <= Streak(h.wkcs + [wkc])
    requires e1.phase != Priming ==> ThreeInARow(h.wkcs + [wkc])
    requires forall i :: 0 <= i < |e1.slaves| && e1.slaves[i].reachedOp ==> ShownOp(h.told, e1.slaves[i].station)
    requires e1.phase == Operational ==> AllReached(e1.slaves)
    requires e1.phase == Faulted ==> ShownFault(h.told, e1.slaves)
    requires e1.phase == Priming ==> e1.appended == [] && rs == []
    requires |rs| == |ts| && forall i :: 0 <= i < |rs| ==> Evident(rs[i], ts[i], e1.slaves)
    ensures Inv(OpGate(ApplyActions(e1, Decoded(rs))), Hist(h.wkcs + [wkc], h.told + ts))
  {
    hide Evident, ShownOp, ShownFault, Streak, ThreeInARow;
    var acts := Decoded(rs);
    var e2 := ApplyActions(e1, acts);
    ActionsCore(e1, acts);
    forall i | 0 <= i < |e2.slaves|
      ensures e2.slaves[i].station == e1.slaves[i].station
      ensures e2.slaves[i].reachedOp ==> ShownOp(h.told + ts, e2.slaves[i].station)
    {
      FlagEvidence(e1, h.told, rs, ts, i);
    }
    if e2.phase == Faulted {
      FaultEvidence(e1.slaves, e2.slaves, h.told, rs, ts);
    } else if e1.phase == Operational {
      AllStay(e1, acts);
    }
    hide ApplyActions, Decoded;
    assert Inv(OpGate(e2), Hist(h.wkcs + [wkc], h.told + ts));
  }

  lemma FlagEvidence(e1: Engine, told: seq<Told>, rs: seq<(Appended, Reply)>, ts: seq<Told>, i: nat)
    requires |rs| == |ts| && forall k :: 0 <= k < |rs| ==> Evident(rs[k], ts[k], e1.slaves)
    requires i < |e1.slaves| && (e1.slaves[i].reachedOp ==> ShownOp(told, e1.slaves[i].station))
    ensures var e2 := ApplyActions(e1, Decoded(rs));
      && i < |e2.slaves| && e2.slaves[i].station == e1.slaves[i].station
      && (e2.slaves[i].reachedOp ==> ShownOp(told + ts, e1.slaves[i].station))
  {
    hide ApplyActions, AlError, AlState, FirstByte;
    ActionsFlags(e1, Decoded(rs), i);
    if e1.slaves[i].reachedOp {
      var t :| t in told && TellsOp(t, e1.slaves[i].station);
      assert t in told + ts;
    } else if OpReached(i) in Decoded(rs) {
      var k :| 0 <= k < |rs| && Decoded(rs)[k] == OpReached(i);
      DecodeMeaning(rs[k].0, rs[k].1, i);
      assert Evident(rs[k], ts[k], e1.slaves) && ts[k] in told + ts;
    }
  }

  lemma FaultEvidence(was: seq<SlaveRt>, slaves: seq<SlaveRt>, told: seq<Told>, rs: seq<(Appended, Reply)>,
      ts: seq<Told>)
    requires |rs| == |ts| && forall k :: 0 <= k < |rs| ==> Evident(rs[k], ts[k], was)
    requires |slaves| == |was| && forall i :: 0 <= i < |was| ==> slaves[i].station == was[i].station
    requires Fault in Decoded(rs) || ShownFault(told, was)
    ensures ShownFault(told + ts, slaves)
  {
    hide TellsFault, MeansFault;
    var t, s;
    if Fault in Decoded(rs) {
      var k :| 0 <= k < |rs| && Decoded(rs)[k] == Fault;
      DecodeMeaning(rs[k].0, rs[k].1, 0);
      assert Evident(rs[k], ts[k], was);
      t := ts[k];
      s :| s in was && TellsFault(t, s.station);
    } else {
      t, s :| t in told && s in was && TellsFault(t, s.station);
    }
    var i :| 0 <= i < |was| && was[i] == s;
    assert t in told + ts && slaves[i] in slaves && TellsFault(t, slaves[i].station);
  }

  lemma AllStay(e1: Engine, acts: seq<Applied>)
    requires AllReached(e1.slaves)
    ensures AllReached(ApplyActions(e1, acts).slaves)
  {
    var e2 := ApplyActions(e1, acts);
    ActionsCore(e1, acts);
    forall s | s in e2.slaves
      ensures s.reachedOp
    {
      var i :| 0 <= i < |e2.slaves| && e2.slaves[i] == s;
      assert e1.slaves[i] in e1.slaves;
      ActionsFlags(e1, acts, i);
    }
  }

  // ---- One cycle, with whatever the host does to the image in between ----

  /** One turn of the engine; `image` is what the outputs make of the process image. */
  datatype Cycle = Cycle(ring: seq<RxFrame>, index: byte, accepted: bool, image: seq<byte>)

  function Turn(ranges: seq<(nat, nat)>, e: Engine, c: Cycle): Engine { TurnBuilt(ranges, e, c).e }

  /** The same turn with the datagrams it sends. */
  function TurnBuilt(ranges: seq<(nat, nat)>, e: Engine, c: Cycle): Built {
    Send(BeginTick(ranges, e, c.ring).0.(image := c.image), c.index, c.accepted)
  }

  /** Building the tail leaves phase, OP flags and health alone, and adds nothing in `Priming`. */
  lemma TailKeeps(e: Engine, index: byte)
    ensures var t := BuildTail(e, index);
      && t.e.phase == e.phase && t.e.slaves == e.slaves && t.e.goodCycles == e.goodCycles
      && (e.phase == Priming ==> t.e.appended == e.appended)
  {
    hide SkipReached, FollowerStation, Read;
    match e.phase
    case Priming =>
    case Faulted =>
    case RequestingOp =>
    case Operational =>
  }

  lemma SendKeepsInv(e: Engine, h: Hist, image: seq<byte>, index: byte, accepted: bool)
    requires Inv(e, h)
    ensures var b := Send(e.(image := image), index, accepted); Inv(b.e, h) && b.e.phase == e.phase && Kept(b)
  {
    TailKeeps(e.(image := image, expectedIndex := index, appended := []), NextIndex(index));
    SentIsDescribed(e.(image := image), index, accepted);
    PollsMonitor(e.(image := image), index, accepted);
    hide BuildTail, Streak, ThreeInARow, AllReached, ShownOp, ShownFault, Describes;
  }

  /** Status is polled only beside a distribution of the time. */
  lemma PollsMonitor(e: Engine, index: byte, accepted: bool)
    ensures var b := Send(e, index, accepted); (exists k :: 0 <= k < |b.e.appended| && b.e.appended[k].AlPoll?) ==>
      Monitors(b.dgs)
  {
    hide SkipReached, FollowerStation, Read, Zeros, AutoincAdp;
  }

  /** One turn after `b` was sent. */
  lemma TurnKeepsInv(ranges: seq<(nat, nat)>, b: Built, h: Hist, c: Cycle)
    requires Inv(b.e, h) && Kept(b)
    ensures Inv(Turn(ranges, b.e, c), Observe(h, b, c.ring)) && Kept(TurnBuilt(ranges, b.e, c))
  {
    BeginKeepsInv(ranges, b, h, c.ring);
    SendKeepsInv(BeginTick(ranges, b.e, c.ring).0, Observe(h, b, c.ring), c.image, c.index, c.accepted);
  }

  lemma BeginKeepsInv(ranges: seq<(nat, nat)>, b: Built, h: Hist, ring: seq<RxFrame>)
    requires Inv(b.e, h) && Kept(b)
    ensures Inv(BeginTick(ranges, b.e, ring).0, Observe(h, b, ring))
  {
    hide Process, Receive, ShownOp, ShownFault, Describes, Streak, ThreeInARow;
    var e1 := b.e.(totalCycles := (b.e.totalCycles + 1) % 0x1_0000_0000);
    if b.e.outstanding {
      ReceiveIsProcess(ranges, e1, ring, RX_LEN);
      match Taken(b.e.expectedIndex, ring, RX_LEN) {
        case None =>
        case Some(p) =>
          CountsAside(b, e1);
          ProcessKeepsInv(ranges, e1, b.dgs, h, p);
      }
    } else {
    }
  }

  lemma CountsAside(b: Built, e1: Engine)
    requires e1 == b.e.(totalCycles := e1.totalCycles) && Kept(b)
    ensures Kept(Built(e1, b.dgs, 0))
  {
    forall k | 0 <= k < |b.e.appended| && b.e.outstanding
      ensures Describes(e1.appended[k], b.dgs[k + 1], e1)
    {
      assert Describes(b.e.appended[k], b.dgs[k + 1], b.e);
    }
  }

  function Run(ranges: seq<(nat, nat)>, e: Engine, cs: seq<Cycle>): Engine
    decreases |cs|
  {
    if cs == [] then e else Run(ranges, Turn(ranges, e, cs[0]), cs[1..])
  }

  /** The cycle number counts the cycles, in 32 bits. */
  lemma {:induction false} RunCounts(ranges: seq<(nat, nat)>, e: Engine, cs: seq<Cycle>)
    ensures Run(ranges, e, cs).totalCycles == (e.totalCycles + |cs|) % 0x1_0000_0000
    decreases |cs|
  {
    if cs == [] {
    } else {
      hide Turn;
      TurnCounts(ranges, e, cs[0]);
      RunCounts(ranges, Turn(ranges, e, cs[0]), cs[1..]);
      OneMore(e.totalCycles, |cs| - 1);
    }
  }

  lemma OneMore(t: dword, n: nat)
    ensures ((t + 1) % 0x1_0000_0000 + n) % 0x1_0000_0000 == (t + 1 + n) % 0x1_0000_0000
  {
  }

  lemma TurnCounts(ranges: seq<(nat, nat)>, e: Engine, c: Cycle)
    ensures Turn(ranges, e, c).totalCycles == (e.totalCycles + 1) % 0x1_0000_0000
  {
    hide Receive, Process, Taken, BuildTail;
    var e1 := e.(totalCycles := (e.totalCycles + 1) % 0x1_0000_0000);
    ReceiveIsProcess(ranges, e1, c.ring, RX_LEN);
    if e.outstanding {
      match Taken(e.expectedIndex, c.ring, RX_LEN) {
        case None =>
        case Some(p) => ProcessCounts(ranges, e1, p);
      }
    }
    var f := BeginTick(ranges, e, c.ring).0.(image := c.image);
    TailCounts(f.(expectedIndex := c.index, appended := []), NextIndex(c.index));
  }

  lemma TailCounts(e: Engine, index: byte)
    ensures BuildTail(e, index).e.totalCycles == e.totalCycles
  {
    hide SkipReached, FollowerStation, Read;
  }

  lemma ProcessCounts(ranges: seq<(nat, nat)>, e: Engine, frame: seq<byte>)
    ensures Process(ranges, e, frame).totalCycles == e.totalCycles
  {
    match ParseAt(frame, FRAME_HEADER)
    case None =>
    case Some((lrw, next)) =>
      ActionsCore(Gate(e.(image := ApplyRanges(e.image, ranges, lrw.data), lastWkc := lrw.wkc), lrw.wkc),
        DecodeTail(e.appended, frame, next));
      hide ApplyActions, ApplyRanges, DecodeTail;
  }

  /** What the run after `b` sees: each cycle the answer to the frame the one before sent. */
  function History(ranges: seq<(nat, nat)>, b: Built, h: Hist, cs: seq<Cycle>): Hist
    decreases |cs|
  {
    if cs == [] then h else History(ranges, TurnBuilt(ranges, b.e, cs[0]), Observe(h, b, cs[0].ring), cs[1..])
  }

  lemma {:induction false} RunKeepsInv(ranges: seq<(nat, nat)>, b: Built, h: Hist, cs: seq<Cycle>)
    requires Inv(b.e, h) && Kept(b)
    ensures Inv(Run(ranges, b.e, cs), History(ranges, b, h, cs))
    decreases |cs|
  {
    if cs == [] {
    } else {
      hide Inv, Kept, Observe;
      TurnKeepsInv(ranges, b, h, cs[0]);
      RunKeepsInv(ranges, TurnBuilt(ranges, b.e, cs[0]), Observe(h, b, cs[0].ring), cs[1..]);
    }
  }

  /** Phase safety over every run, by what went over the wire: leaving `Priming` takes three
      answered LRW replies in a row; `Operational`, for every slave, a read of its AL status
      that was sent to it and answered OP; `Faulted`, a status read to a driven slave that was
      answered with an error, or, once operational, with another state. Missing and unanswered
      replies do none of it. */
  lemma PhaseSafety(ranges: seq<(nat, nat)>, imageSize: nat, stations: seq<(word, word)>, refRingPos: word,
      cs: seq<Cycle>)
    ensures var e0 := Start(imageSize, stations, refRingPos);
      var e, h := Run(ranges, e0, cs), History(ranges, Built(e0, [], 0), Hist([], []), cs);
      && (e.phase != Priming ==> ThreeInARow(h.wkcs))
      && (e.phase == Operational ==> forall s <- e.slaves :: ShownOp(h.told, s.station))
      && (e.phase == Faulted ==> ShownFault(h.told, e.slaves))
  {
    hide ThreeInARow, ShownOp, ShownFault, Run, History;
    var e0 := Start(imageSize, stations, refRingPos);
    RunKeepsInv(ranges, Built(e0, [], 0), Hist([], []), cs);
    var e, h := Run(ranges, e0, cs), History(ranges, Built(e0, [], 0), Hist([], []), cs);
    if e.phase == Operational {
      forall s | s in e.slaves
        ensures ShownOp(h.told, s.station)
      {
        assert s.reachedOp;
        var i :| 0 <= i < |e.slaves| && e.slaves[i] == s;
      }
    }
  }

  // ---- Faults ----

  ghost predicate FaultReported(kinds: seq<Appended>, frame: seq<byte>) {
    match ParseAt(frame, FRAME_HEADER)
    case None => false
    case Some((lrw, next)) => exists r :: r in TailReplies(kinds, frame, next) && MeansFault(r.0, r.1)
  }

  /** A cycle ends `Faulted` exactly if it began so or took a reply with an answered bad
      status in it. */
  lemma FaultIff(ranges: seq<(nat, nat)>, e: Engine, c: Cycle)
    ensures Turn(ranges, e, c).phase == Faulted <==>
      || e.phase == Faulted
      || (e.outstanding && match Taken(e.expectedIndex, c.ring, RX_LEN)
          case None => false case Some(p) => FaultReported(e.appended, p))
  {
    hide Process, Receive, Send, Turn, Taken, FaultReported;
    var e1 := e.(totalCycles := (e.totalCycles + 1) % 0x1_0000_0000);
    TurnPhase(ranges, e, c);
    if e.outstanding {
      ReceiveIsProcess(ranges, e1, c.ring, RX_LEN);
      match Taken(e.expectedIndex, c.ring, RX_LEN) {
        case None =>
        case Some(p) => ProcessFaultIff(ranges, e1, p);
      }
    }
  }

  /** Sending does not move the phase. */
  lemma TurnPhase(ranges: seq<(nat, nat)>, e: Engine, c: Cycle)
    ensures Turn(ranges, e, c).phase == BeginTick(ranges, e, c.ring).0.phase
  {
    hide BuildTail, BeginTick;
    var e2 := BeginTick(ranges, e, c.ring).0;
    TailKeeps(e2.(image := c.image, expectedIndex := c.index, appended := []), NextIndex(c.index));
  }

  lemma ProcessFaultIff(ranges: seq<(nat, nat)>, e: Engine, frame: seq<byte>)
    ensures Process(ranges, e, frame).phase == Faulted <==> e.phase == Faulted || FaultReported(e.appended, frame)
  {
    hide ApplyActions, Decoded, DecodeTail, TailReplies, ApplyRanges, DecodeAppended, MeansFault, SameCore, AllReached;
    match ParseAt(frame, FRAME_HEADER)
    case None =>
    case Some((lrw, next)) =>
      var rs := TailReplies(e.appended, frame, next);
      TailIsDecoded(e.appended, frame, next);
      var e1 := Gate(e.(image := ApplyRanges(e.image, ranges, lrw.data), lastWkc := lrw.wkc), lrw.wkc);
      ActionsCore(e1, Decoded(rs));
      FaultDecoded(rs);
  }

  lemma FaultDecoded(rs: seq<(Appended, Reply)>)
    ensures Fault in Decoded(rs) <==> exists r :: r in rs && MeansFault(r.0, r.1)
  {
    NoActions(rs, Fault);
    forall r | r in rs
      ensures DecodeAppended(r.0, r.1) == Fault <==> MeansFault(r.0, r.1)
    {
      DecodeMeaning(r.0, r.1, 0);
    }
  }

  /** `Faulted` is for ever. */
  lemma {:induction false} FaultIsPermanent(ranges: seq<(nat, nat)>, e: Engine, cs: seq<Cycle>)
    requires e.phase == Faulted
    ensures Run(ranges, e, cs).phase == Faulted
    decreases |cs|
  {
    if cs == [] {
    } else {
      FaultIff(ranges, e, cs[0]);
      FaultIsPermanent(ranges, Turn(ranges, e, cs[0]), cs[1..]);
    }
  }
}
