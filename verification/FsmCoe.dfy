/** The CoE mailbox stepper (src/ethercat/fsm_coe.rs:53-201) and the sequences of expedited writes
    it is run over (src/ethercat/fsm_coe.rs:272-341). */
module FsmCoe {
  import opened Bytes
  import opened Config
  import opened Datagram
  import opened Device
  import opened Ecrt
  import opened Link
  import opened Trace
  import opened Coe

  const MAX_MBOX_WAITS: nat := 1_000
  const MAX_SEQ: nat := 36
  /** Steps one SDO transfer can take, whatever the slave answers. */
  const COE_STEPS: nat := EXCHANGE * (MAX_MBOX_WAITS + 2)

  datatype State = WriteRequest | WaitMailbox | ReadResponse | Done

  /** A completed transfer: the request written, the mailbox seen full, a response taken. */
  function SdoEvents(mbox: Mailbox, r: SdoRequest): (evs: seq<Event>)
    requires r.Valid()
    ensures |evs| == 3
  {
    [Wrote(mbox.station, mbox.rxOffset, MailboxWrite(mbox, r)), Full(mbox.station),
     Answered(mbox.station, mbox.txOffset)]
  }

  class FsmCoe {
    const mbox: Mailbox
    const request: SdoRequest
    var state: State
    const link: Link
    var result: seq<byte>
    var waits: nat
    ghost const base: seq<Event>

    ghost function Repr(): set<object> { {this, link} }

    constructor (mbox: Mailbox, request: SdoRequest, ghost dev: Device)
      requires request.Valid()
      ensures Valid() && fresh(Repr()) && Linked(Record(dev)) && Budget() == COE_STEPS
      ensures this.mbox == mbox && this.request == request && state == WriteRequest
      ensures base == Record(dev).events
    {
      this.mbox, this.request, state, result, waits := mbox, request, WriteRequest, [], 0;
      link := new Link(320);
      base := Record(dev).events;
    }

    function Request(): seq<Req>
      requires request.Valid()
      reads this`state
    {
      match state
      case WriteRequest => [Req(FPWR, mbox.station, mbox.rxOffset, MailboxWrite(mbox, request))]
      case WaitMailbox => [Req(FPRD, mbox.station, SM1_STATUS, [0])]
      case _ => [Req(FPRD, mbox.station, mbox.txOffset, Zeros(MailboxReadLen(mbox)))]
    }

    /** What the slave is sent: the request into the window it reads, then reads of the status of
        its second sync manager, then a read of the window it writes. */
    lemma Asks()
      requires request.Valid()
      ensures |Request()| == 1
      ensures var q := Request()[0];
        && q.adp == mbox.station
        && (state == WriteRequest ==>
          q.cmd == 0x05 && q.ado == mbox.rxOffset && q.payload == MailboxWrite(mbox, request))
        && (state == WaitMailbox ==> q.cmd == 0x04 && q.ado == 0x080D && |q.payload| == 1)
        && (state == ReadResponse ==>
          q.cmd == 0x04 && q.ado == mbox.txOffset && (16 <= mbox.txSize <= 256 ==> |q.payload| == mbox.txSize))
    {
      WholeWindow(mbox);
      hide MailboxWrite;
    }

    ghost predicate Valid()
      reads Repr()
    {
      request.Valid() && link.Valid() && waits < MAX_MBOX_WAITS && link.Carries(Request())
    }

    ghost function Progress(): seq<Event>
      requires request.Valid()
      reads this`state
    {
      match state
      case WriteRequest => []
      case Done => SdoEvents(mbox, request)
      case WaitMailbox => SdoEvents(mbox, request)[..1]
      case ReadResponse => SdoEvents(mbox, request)[..2]
    }

    ghost predicate OnRecord(t: Trace)
      requires request.Valid()
      reads this`state
    {
      t.events == base + Progress()
    }

    ghost predicate Linked(t: Trace)
      requires request.Valid()
      reads this`state, link
    {
      OnRecord(t) && link.Awaits(t)
    }

    ghost function Following(): nat
      reads this
    {
      match state
      case WriteRequest => MAX_MBOX_WAITS + 1
      case WaitMailbox => if waits < MAX_MBOX_WAITS then MAX_MBOX_WAITS - waits else 0
      case _ => 0
    }

    ghost function Budget(): nat
      reads Repr()
    {
      link.Budget() + EXCHANGE * Following()
    }

    /** One step. Success means the request was taken and a response accepted; a download
        that fails adds nothing to the record, unless two slaves took the write. */
    method Step(dev: Device, index: byte) returns (r: Outcome<bool>, next: byte)
      requires Valid() && Linked(Record(dev))
      modifies Repr(), dev
      ensures r.Ok? ==> Valid() && Linked(Record(dev)) && (r.value <==> state == Done)
      ensures r.Ok? && !r.value ==> Budget() < old(Budget())
      ensures r.Ok? && r.value && old(state) != Done ==> ResultFrom(dev.log, request.kind, result)
      ensures r.Err? && request.kind == Download ==> Stopped(old(Record(dev)), Record(dev))
      ensures r.Err? && r.error.SdoAbort? ==> AbortFrom(dev.log, request.kind, r.error.abort)
    {
      hide Note, Record, Number, MailboxWrite, SdoEvents, ParseSdoResponse;
      next := index;
      if state == Done {
        return Ok(true), next;
      }
      var a;
      a, next := link.Ask(dev, index, Request());
      match a
      case Err(e) => return Err(e), next;
      case Ok(None) => return Ok(false), next;
      case Ok(Some(bytes)) =>
        r := Take(bytes, Quiet(old(Record(dev))), Record(dev));
    }

    method Take(bytes: seq<byte>, ghost t: Trace, ghost t': Trace) returns (r: Outcome<bool>)
      requires state != Done && link.Idle() && Valid() && OnRecord(t) && t' == Note(t, Exchange(Request(), bytes))
      modifies this
      ensures r.Ok? ==> Valid() && OnRecord(t') && (r.value <==> state == Done)
      ensures r.Ok? && !r.value ==> Following() < old(Following())
      ensures r.Ok? && r.value ==>
        Parse(bytes).Some? && ParseSdoResponse(request.kind, Parse(bytes).value.data) == Ok(result)
      ensures r.Err? && request.kind == Download ==> Stopped(t, t')
      ensures r.Err? && r.error.SdoAbort? ==>
        Parse(bytes).Some? && ParseSdoResponse(request.kind, Parse(bytes).value.data) == Err(r.error)
    {
      hide MailboxWrite, Parse, Stopped;
      var reply := Parse(bytes);
      StoppedBySame(t, t');
      if reply.None? {
        return Err(FrameTooShort);
      }
      match state
      case WriteRequest =>
        if reply.value.wkc != 1 {
          assert Request() == [Request()[0]];
          WriteRefused(t, Request()[0], bytes);
          return Err(WorkingCounter);
        }
        state, waits := WaitMailbox, 0;
        return Ok(false);
      case WaitMailbox =>
        var status := FirstByte(reply.value.data);
        if reply.value.wkc == 1 && (status / 8) % 2 == 1 {
          state := ReadResponse;
          return Ok(false);
        }
        waits := waits + 1;
        if waits >= MAX_MBOX_WAITS {
          return Err(MailboxTimeout);
        }
        return Ok(false);
      case ReadResponse =>
        if reply.value.wkc != 1 {
          return Err(WorkingCounter);
        }
        var parsed := ParseSdoResponse(request.kind, reply.value.data);
        match parsed {
          case Err(e) => return Err(e);
          case Ok(data) =>
            result, state := data, Done;
            return Ok(true);
        }
    }
  }

  /** `result` is what the last reply on record carries. */
  predicate ResultFrom(log: seq<Exchange>, kind: SdoKind, result: seq<byte>) {
    && log != [] && Parse(log[|log| - 1].reply).Some?
    && ParseSdoResponse(kind, Parse(log[|log| - 1].reply).value.data) == Ok(result)
  }

  /** The abort is the server's own, in the last reply on record. */
  predicate AbortFrom(log: seq<Exchange>, kind: SdoKind, code: dword) {
    && log != [] && Parse(log[|log| - 1].reply).Some?
    && ParseSdoResponse(kind, Parse(log[|log| - 1].reply).value.data) == Err(SdoAbort(code))
  }

  // ---- Sequences ----

  /** The queue after one more `push`: a full queue drops it. */
  function Pushed(ops: seq<SdoRequest>, r: SdoRequest): seq<SdoRequest> {
    if |ops| < MAX_SEQ then ops + [r] else ops
  }

  function SeqEvents(mbox: Mailbox, ops: seq<SdoRequest>): seq<Event>
    requires forall r <- ops :: r.Valid()
  {
    if ops == [] then [] else SeqEvents(mbox, ops[..|ops| - 1]) + SdoEvents(mbox, ops[|ops| - 1])
  }

  lemma {:induction false} SeqPrefix(mbox: Mailbox, ops: seq<SdoRequest>, n: nat)
    requires n <= |ops| && forall r <- ops :: r.Valid()
    ensures SeqEvents(mbox, ops[..n]) <= SeqEvents(mbox, ops)
  {
    hide SdoEvents;
    if n < |ops| {
      SeqPrefix(mbox, ops[..|ops| - 1], n);
      assert ops[..|ops| - 1][..n] == ops[..n];
    } else {
      assert ops[..n] == ops;
    }
  }

  predicate Downloads(ops: seq<SdoRequest>) { forall r <- ops :: r.kind == Download }

  /** Steps a sequence of `n` transfers can take. */
  function SeqSteps(n: nat): nat { if n == 0 then 0 else COE_STEPS + SeqSteps(n - 1) }

  lemma {:induction false} SeqStepsBound(n: nat)
    requires n <= MAX_SEQ
    ensures SeqSteps(n) <= SeqSteps(MAX_SEQ)
    decreases MAX_SEQ - n
  {
    if n < MAX_SEQ {
      SeqStepsBound(n + 1);
      assert SeqSteps(n + 1) == COE_STEPS + SeqSteps(n);
    }
  }

  class CoeSeq {
    const mbox: Mailbox
    var ops: seq<SdoRequest>
    var cur: nat
    var coe: FsmCoe?
    ghost const base: seq<Event>

    ghost function Repr(): set<object>
      reads this`coe
    {
      {this} + if coe != null then coe.Repr() else {}
    }

    constructor (mbox: Mailbox, ghost dev: Device)
      ensures Valid() && fresh(Repr()) && ops == [] && cur == 0 && coe == null && this.mbox == mbox
      ensures base == Record(dev).events
    {
      this.mbox, ops, cur, coe := mbox, [], 0, null;
      base := Record(dev).events;
    }

    ghost predicate Valid()
      reads this, if coe != null then coe.Repr() else {}
    {
      && |ops| <= MAX_SEQ && cur <= |ops| && (forall r <- ops :: r.Valid())
      && (coe != null ==>
        && cur < |ops| && coe.Valid() && coe.mbox == mbox && coe.request == ops[cur]
        && coe.base == base + SeqEvents(mbox, ops[..cur]))
    }

    /** The transfers done and the one under way are a beginning of the sequence. */
    lemma SoFar(t: Trace) returns (evs: seq<Event>)
      requires Valid() && Linked(t)
      ensures t.events == base + evs && evs <= SeqEvents(mbox, ops)
    {
      hide SdoEvents;
      evs := SeqEvents(mbox, ops[..cur]) + if coe != null then coe.Progress() else [];
      SeqPrefix(mbox, ops, cur);
      if coe != null {
        SeqPrefix(mbox, ops, cur + 1);
        assert ops[..cur + 1][..cur] == ops[..cur];
        assert SeqEvents(mbox, ops[..cur + 1]) == SeqEvents(mbox, ops[..cur]) + SdoEvents(mbox, ops[cur]);
        assert coe.Progress() <= SdoEvents(mbox, ops[cur]);
      }
    }

    method Push(index: word, subindex: byte, data: seq<byte>)
      requires Valid() && coe == null
      modifies this`ops
      ensures Valid() && ops == Pushed(old(ops), DownloadOf(index, subindex, data))
    {
      if |ops| < MAX_SEQ {
        ops := ops + [DownloadOf(index, subindex, data)];
      }
    }

    ghost predicate Linked(t: Trace)
      reads this, if coe != null then coe.Repr() else {}
      requires Valid()
    {
      if coe != null then coe.Linked(t) else t.events == base + SeqEvents(mbox, ops[..cur])
    }

    ghost function Budget(): nat
      reads this, if coe != null then coe.Repr() else {}
      requires Valid()
    {
      if coe != null then SeqSteps(|ops| - cur - 1) + coe.Budget() else SeqSteps(|ops| - cur)
    }

    /** The transfer for `ops[cur]`, if none is under way. */
    method Begin(ghost dev: Device)
      requires Valid() && cur < |ops| && Linked(Record(dev))
      modifies this`coe
      ensures Valid() && coe != null && fresh(Repr() - old(Repr())) && Budget() == old(Budget())
      ensures Linked(Record(dev))
    {
      hide Record, SdoEvents, SeqEvents;
      if coe == null {
        coe := new FsmCoe(mbox, ops[cur], dev);
      }
    }

    /** On past a completed transfer. */
    method Advance(ghost t: Trace)
      requires Valid() && coe != null && coe.state == State.Done && Linked(t)
      modifies this`cur, this`coe
      ensures Valid() && coe == null && cur == old(cur) + 1 && Linked(t) && Budget() == SeqSteps(|ops| - old(cur) - 1)
    {
      hide SdoEvents;
      assert ops[..cur + 1][..cur] == ops[..cur];
      assert SeqEvents(mbox, ops[..cur + 1]) == SeqEvents(mbox, ops[..cur]) + SdoEvents(mbox, ops[cur]);
      coe, cur := null, cur + 1;
    }

    method Step(dev: Device, index: byte) returns (r: Outcome<bool>, next: byte)
      requires Valid() && Linked(Record(dev))
      modifies Repr(), dev
      ensures fresh(Repr() - old(Repr())) && ops == old(ops)
      ensures r.Ok? ==> Valid() && Linked(Record(dev))
      ensures r.Ok? && !r.value ==> Budget() < old(Budget())
      ensures r.Ok? && r.value ==> Record(dev).events == base + SeqEvents(mbox, ops)
      ensures r.Err? && Downloads(old(ops)) ==> Stopped(old(Record(dev)), Record(dev))
    {
      hide Record, SdoEvents, SeqSteps, SeqEvents, Stopped, Downloads, FsmCoe.Valid, FsmCoe.Linked, FsmCoe.Budget;
      assert ops[..|ops|] == ops;
      if cur >= |ops| {
        return Ok(true), index;
      }
      Begin(dev);
      var a;
      a, next := StepCurrent(dev, index);
      if a.Err? {
        return Err(a.error), next;
      }
      if a.value {
        Advance(Record(dev));
      }
      return Ok(cur >= |ops|), next;
    }

    /** One step of the transfer under way. */
    method StepCurrent(dev: Device, index: byte) returns (r: Outcome<bool>, next: byte)
      requires Valid() && coe != null && Linked(Record(dev))
      modifies coe.Repr(), dev
      ensures r.Ok? ==> Valid() && Linked(Record(dev)) && (r.value ==> coe.state == State.Done)
      ensures r.Ok? && !r.value ==> Budget() < old(Budget())
      ensures r.Ok? && r.value ==> SeqSteps(|ops| - cur - 1) < old(Budget())
      ensures r.Err? && Downloads(ops) ==> Stopped(old(Record(dev)), Record(dev))
    {
      hide Record, SdoEvents, SeqSteps, SeqEvents, Stopped;
      assert coe.link.Budget() > 0;
      r, next := coe.Step(dev, index);
    }
  }
}
