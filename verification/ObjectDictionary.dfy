/** The slave's object dictionary after its bring-up: PDO mappings and assignments as
    configured (src/ethercat/fsm_pdo_entry.rs, src/ethercat/fsm_pdo.rs). */
module ObjectDictionary {
  import opened Bytes
  import opened Config
  import opened Ecrt
  import opened Trace
  import opened Coe
  import opened PdoConfig
  import opened SlaveConfig
  import opened Replay
  import FsmChange
  import FsmCoe
  import FsmDc

  /** Object and subindex to contents. */
  type Od = map<(word, byte), seq<byte>>

  /** A mailbox write is read as a download by the slave's CoE server; nothing else gets here. */
  function OdTake(od: Od, j: Job, ev: Event): Od {
    match ev
    case Wrote(s, ado, data) =>
      if s != j.station || ado != j.mbox.rxOffset then od
      else
        (match DecodeDownload(data)
         case None => od
         case Some(w) => od[(w.index, w.subindex) := w.data])
    case _ => od
  }

  function OdPlayed(od: Od, j: Job, evs: seq<Event>): Od {
    if evs == [] then od else OdTake(OdPlayed(od, j, evs[..|evs| - 1]), j, evs[|evs| - 1])
  }

  lemma {:induction false} OdConcat(od: Od, j: Job, a: seq<Event>, b: seq<Event>)
    ensures OdPlayed(od, j, a + b) == OdPlayed(OdPlayed(od, j, a), j, b)
    decreases |b|
  {
    if b == [] {
      assert a + b == a;
    } else {
      assert (a + b)[..|a + b| - 1] == a + b[..|b| - 1];
      OdConcat(od, j, a, b[..|b| - 1]);
    }
  }

  /** No mailbox write among the events. */
  predicate Silent(j: Job, evs: seq<Event>) {
    forall ev <- evs :: ev.Wrote? ==> ev.ado != j.mbox.rxOffset
  }

  lemma {:induction false} SilentKeeps(od: Od, j: Job, evs: seq<Event>)
    requires Silent(j, evs)
    ensures OdPlayed(od, j, evs) == od
  {
    if evs == [] {
    } else {
      assert forall ev <- evs[..|evs| - 1] :: ev in evs;
      SilentKeeps(od, j, evs[..|evs| - 1]);
      assert evs[|evs| - 1] in evs;
    }
  }

  // ---- A queue of downloads ----

  /** Every download has something to write. */
  predicate Sized(ops: seq<Request>) { forall r <- ops :: r.kind == Download && 1 <= |r.data| <= 4 }

  function WriteAll(od: Od, ops: seq<Request>): Od {
    if ops == [] then od
    else
      var r := ops[|ops| - 1];
      WriteAll(od, ops[..|ops| - 1])[(r.index, r.subindex) := r.data]
  }

  /** The slave's dictionary takes a queue's writes one for one. */
  lemma {:induction false} QueueWrites(od: Od, j: Job, ops: seq<Request>)
    requires Sized(ops) && j.mbox.station == j.station
    ensures OdPlayed(od, j, FsmCoe.SeqEvents(j.mbox, ops)) == WriteAll(od, ops)
  {
    if ops == [] {
    } else {
      hide DecodeDownload, MailboxWrite;
      var n := |ops| - 1;
      var r, init := ops[n], FsmCoe.SeqEvents(j.mbox, ops[..n]);
      assert r in ops;
      assert forall x <- ops[..n] :: x in ops;
      QueueWrites(od, j, ops[..n]);
      var evs := FsmCoe.SdoEvents(j.mbox, r);
      OdConcat(od, j, init, evs);
      assert evs[..1][..0] == [] && evs[..1] == [evs[0]] && evs[..2][..1] == evs[..1];
      DownloadUnderstoodIff(j.mbox, r.index, r.subindex, r.data);
      assert DownloadOf(r.index, r.subindex, r.data) == r;
      assert OdPlayed(WriteAll(od, ops[..n]), j, evs[..1]) == WriteAll(od, ops);
    }
  }

  // ---- Lists: count and items under one object ----

  /** Object `obj` lists exactly `items`. */
  predicate Lists(od: Od, obj: word, items: seq<seq<byte>>) {
    && |items| < 0x100
    && (obj, 0) in od && od[(obj, 0)] == [|items|]
    && forall i :: 0 <= i < |items| ==> Holds(od, obj, i, items[i])
  }

  predicate Holds(od: Od, obj: word, i: nat, item: seq<byte>)
    requires i < 0xFF
  {
    (obj, i + 1) in od && od[(obj, i + 1)] == item
  }

  predicate SameAt(od: Od, od': Od, k: (word, byte)) { (k in od <==> k in od') && (k in od ==> od[k] == od'[k]) }

  /** Only object `obj` may differ. */
  ghost predicate OnlyAt(od: Od, od': Od, obj: word) { forall k: (word, byte) :: k.0 != obj ==> SameAt(od, od', k) }

  lemma {:induction false} WritesStay(od: Od, ops: seq<Request>, obj: word)
    requires forall r <- ops :: r.index == obj
    ensures OnlyAt(od, WriteAll(od, ops), obj)
  {
    if ops == [] {
    } else {
      assert forall r <- ops[..|ops| - 1] :: r in ops;
      WritesStay(od, ops[..|ops| - 1], obj);
      assert ops[|ops| - 1] in ops;
    }
  }

  predicate ItemsOk(items: seq<seq<byte>>) { forall d <- items :: 1 <= |d| <= 4 }

  /** The items a sequence carries together with the clear and the commit. */
  const LIST_MAX: nat := FsmCoe.MAX_SEQ - 2

  /** What object `obj` shows after its list has been written: the list, if it fits a sequence;
      otherwise the count is left at zero, over one item more than would have fitted. */
  predicate Shows(od: Od, obj: word, items: seq<seq<byte>>) {
    if |items| <= LIST_MAX then Lists(od, obj, items)
    else
      && (obj, 0) in od && od[(obj, 0)] == [0]
      && forall i :: 0 <= i <= LIST_MAX ==> Holds(od, obj, i, items[i])
  }

  lemma ShowsListIff(od: Od, obj: word, items: seq<seq<byte>>)
    requires Shows(od, obj, items)
    ensures Lists(od, obj, items) <==> |items| <= LIST_MAX
  {
  }

  lemma WriteLast(od: Od, body: seq<Request>, r: Request)
    ensures WriteAll(od, body + [r]) == WriteAll(od, body)[(r.index, r.subindex) := r.data]
  {
    assert (body + [r])[..|body|] == body;
  }

  lemma {:induction false} ItemsWritten(od: Od, obj: word, items: seq<seq<byte>>, m: nat, i: nat)
    requires ItemsOk(items) && i < m <= |items| && m <= LIST_MAX + 1
    ensures Holds(WriteAll(od, Until(obj, items, m)), obj, i, items[i])
  {
    hide Until, WriteAll, ListRequests;
    UntilSteps(obj, items, m - 1);
    WriteLast(od, Until(obj, items, m - 1), DownloadOf(obj, m, items[m - 1]));
    assert items[m - 1] in items;
    if i < m - 1 {
      ItemsWritten(od, obj, items, m - 1, i);
    }
  }

  /** Until the commit the count reads zero. */
  lemma {:induction false} CountCleared(od: Od, obj: word, items: seq<seq<byte>>, m: nat)
    requires ItemsOk(items) && m <= |items| && m <= LIST_MAX + 1
    ensures var od' := WriteAll(od, Until(obj, items, m)); (obj, 0) in od' && od'[(obj, 0)] == [0]
  {
    hide Until, WriteAll, ListRequests;
    if m == 0 {
      UntilSteps(obj, items, 0);
      assert [] + [DownloadOf(obj, 0, [0])] == [DownloadOf(obj, 0, [0])];
      WriteLast(od, [], DownloadOf(obj, 0, [0]));
    } else {
      UntilSteps(obj, items, m - 1);
      WriteLast(od, Until(obj, items, m - 1), DownloadOf(obj, m, items[m - 1]));
      CountCleared(od, obj, items, m - 1);
    }
  }

  lemma Committed(od: Od, obj: word, items: seq<seq<byte>>)
    requires |items| <= LIST_MAX && forall i :: 0 <= i < |items| ==> Holds(od, obj, i, items[i])
    ensures Lists(od[(obj, 0) := [|items|]], obj, items)
  {
  }

  lemma OneObject(obj: word, items: seq<seq<byte>>)
    ensures forall r <- PushAll(ListRequests(obj, items)) :: r.index == obj
  {
    PushAllIff(ListRequests(obj, items));
  }

  /** The queue of a list that does not fit holds the clear and the first items. */
  lemma CutList(obj: word, items: seq<seq<byte>>)
    requires |items| > LIST_MAX
    ensures PushAll(ListRequests(obj, items)) == Until(obj, items, LIST_MAX + 1)
  {
    PushAllIff(ListRequests(obj, items));
    assert ListRequests(obj, items)[..FsmCoe.MAX_SEQ] == Until(obj, items, LIST_MAX + 1);
  }

  /** Clear, fill, commit: afterwards the object shows the items, and no other object moved. */
  lemma ListWritten(od: Od, obj: word, items: seq<seq<byte>>)
    requires ItemsOk(items)
    ensures var od' := WriteAll(od, PushAll(ListRequests(obj, items))); Shows(od', obj, items) && OnlyAt(od, od', obj)
  {
    hide ItemRequests, ListRequests, WriteAll, Lists, OnlyAt, Until, PushAll;
    var n := if |items| <= LIST_MAX then |items| else LIST_MAX + 1;
    forall i | 0 <= i < n
      ensures Holds(WriteAll(od, Until(obj, items, n)), obj, i, items[i])
    {
      ItemsWritten(od, obj, items, n, i);
    }
    if |items| <= LIST_MAX {
      UntilSteps(obj, items, |items|);
      PushAllIff(ListRequests(obj, items));
      WriteLast(od, Until(obj, items, |items|), DownloadOf(obj, 0, [|items|]));
      Committed(WriteAll(od, Until(obj, items, |items|)), obj, items);
    } else {
      CutList(obj, items);
      CountCleared(od, obj, items, n);
    }
    OneObject(obj, items);
    WritesStay(od, PushAll(ListRequests(obj, items)), obj);
  }

  lemma ListSized(obj: word, items: seq<seq<byte>>)
    requires ItemsOk(items)
    ensures Sized(PushAll(ListRequests(obj, items)))
  {
    PushAllIff(ListRequests(obj, items));
    forall r | r in ItemRequests(obj, items)
      ensures r.kind == Download && 1 <= |r.data| <= 4
    {
      var i :| 0 <= i < |items| && ItemRequests(obj, items)[i] == r;
      assert items[i] in items;
    }
    assert forall r <- PushAll(ListRequests(obj, items)) :: r in ListRequests(obj, items);
  }

  /** One list queue replayed. */
  lemma QueueLists(od: Od, j: Job, obj: word, items: seq<seq<byte>>)
    requires ItemsOk(items) && j.mbox.station == j.station
    ensures var od' := OdPlayed(od, j, QueueEvents(j, ListRequests(obj, items)));
      Shows(od', obj, items) && OnlyAt(od, od', obj)
  {
    ListSized(obj, items);
    QueueWrites(od, j, PushAll(ListRequests(obj, items)));
    ListWritten(od, obj, items);
    hide ListRequests, WriteAll, Shows, OnlyAt, PushAll;
  }

  // ---- Many lists, one object each ----

  /** Objects to be listed, with their items. */
  datatype Listing = Listing(obj: word, items: seq<seq<byte>>)

  function ListEvents(j: Job, ls: seq<Listing>): seq<Event> {
    if ls == [] then []
    else ListEvents(j, ls[..|ls| - 1]) + QueueEvents(j, ListRequests(ls[|ls| - 1].obj, ls[|ls| - 1].items))
  }

  ghost predicate ListingsOk(ls: seq<Listing>) {
    && (forall l <- ls :: ItemsOk(l.items))
    && (forall i, k :: 0 <= i < k < |ls| ==> ls[i].obj != ls[k].obj)
  }

  lemma ListingsOkInit(ls: seq<Listing>)
    requires ListingsOk(ls) && ls != []
    ensures ListingsOk(ls[..|ls| - 1]) && ItemsOk(ls[|ls| - 1].items)
  {
    assert forall l <- ls[..|ls| - 1] :: l in ls;
    assert ls[|ls| - 1] in ls;
  }

  /** Lists of distinct objects do not disturb each other: every one holds at the end. */
  lemma {:induction false} AllListed(od: Od, j: Job, ls: seq<Listing>, k: nat)
    requires ListingsOk(ls) && j.mbox.station == j.station && k < |ls|
    ensures Shows(OdPlayed(od, j, ListEvents(j, ls)), ls[k].obj, ls[k].items)
  {
    hide QueueEvents, ListRequests, OdPlayed;
    var n := |ls| - 1;
    ListingsOkInit(ls);
    OdConcat(od, j, ListEvents(j, ls[..n]), QueueEvents(j, ListRequests(ls[n].obj, ls[n].items)));
    var before := OdPlayed(od, j, ListEvents(j, ls[..n]));
    QueueLists(before, j, ls[n].obj, ls[n].items);
    if k < n {
      AllListed(od, j, ls[..n], k);
      assert ls[..n][k] == ls[k];
      hide ListingsOk;
      ListSurvives(before, OdPlayed(od, j, ListEvents(j, ls)), ls[n].obj, ls[k]);
    }
  }

  lemma ListSurvives(od: Od, od': Od, obj: word, l: Listing)
    requires Shows(od, l.obj, l.items) && OnlyAt(od, od', obj) && l.obj != obj
    ensures Shows(od', l.obj, l.items)
  {
    assert SameAt(od, od', (l.obj, 0));
    forall i | 0 <= i < |l.items| && i <= LIST_MAX
      ensures Holds(od', l.obj, i, l.items[i])
    {
      assert Holds(od, l.obj, i, l.items[i]);
      assert SameAt(od, od', (l.obj, i + 1));
    }
  }

  lemma {:induction false} ListEventsConcat(j: Job, a: seq<Listing>, b: seq<Listing>)
    ensures ListEvents(j, a + b) == ListEvents(j, a) + ListEvents(j, b)
    decreases |b|
  {
    hide QueueEvents, ListRequests;
    if b == [] {
      assert a + b == a;
    } else {
      assert (a + b)[..|a + b| - 1] == a + b[..|b| - 1];
      ListEventsConcat(j, a, b[..|b| - 1]);
    }
  }

  // ---- The configured lists ----

  function Mappings(pdos: seq<PdoCfg>): (ls: seq<Listing>)
    ensures |ls| == |pdos|
  {
    seq(|pdos|, i requires 0 <= i < |pdos| => Listing(pdos[i].index, EntryItems(pdos[i])))
  }

  function AllPdos(sms: seq<SmCfg>): seq<PdoCfg> {
    if sms == [] then [] else AllPdos(sms[..|sms| - 1]) + sms[|sms| - 1].pdos
  }

  function Assignments(sms: seq<SmCfg>): (ls: seq<Listing>)
    ensures |ls| == |sms|
  {
    seq(|sms|, i requires 0 <= i < |sms| => Listing(AssignObject(sms[i].index), PdoItems(sms[i].pdos)))
  }

  lemma {:induction false} PdosAreLists(j: Job, pdos: seq<PdoCfg>)
    ensures PdoEvents(j, pdos) == ListEvents(j, Mappings(pdos))
  {
    if pdos == [] {
    } else {
      hide QueueEvents, ListRequests, EntryItems;
      PdosAreLists(j, pdos[..|pdos| - 1]);
      assert Mappings(pdos)[..|pdos| - 1] == Mappings(pdos[..|pdos| - 1]);
    }
  }

  lemma {:induction false} MapIsLists(j: Job, sms: seq<SmCfg>)
    ensures MapEvents(j, sms) == ListEvents(j, Mappings(AllPdos(sms)))
  {
    if sms == [] {
    } else {
      hide PdoEvents, ListEvents, Mappings;
      var init, pdos := AllPdos(sms[..|sms| - 1]), sms[|sms| - 1].pdos;
      MapIsLists(j, sms[..|sms| - 1]);
      PdosAreLists(j, pdos);
      ListEventsConcat(j, Mappings(init), Mappings(pdos));
      MappingsConcat(init, pdos);
    }
  }

  lemma MappingsConcat(a: seq<PdoCfg>, b: seq<PdoCfg>)
    ensures Mappings(a + b) == Mappings(a) + Mappings(b)
  {
    hide EntryItems;
  }

  lemma {:induction false} AssignIsLists(j: Job, sms: seq<SmCfg>)
    ensures AssignEvents(j, sms) == ListEvents(j, Assignments(sms))
  {
    if sms == [] {
    } else {
      hide QueueEvents, ListRequests, PdoItems;
      AssignIsLists(j, sms[..|sms| - 1]);
      assert Assignments(sms)[..|sms| - 1] == Assignments(sms[..|sms| - 1]);
    }
  }

  /** Every list the slave is to hold: its PDO mappings, then its assignments. */
  function Wanted(j: Job): seq<Listing> { Mappings(AllPdos(j.slave.sms)) + Assignments(j.slave.sms) }

  /** The writes before and after the lists. */
  function BeforeLists(j: Job): seq<Event> { UpToInit(j) }

  function AfterLists(j: Job, rd: FsmDc.Readings): seq<Event>
    requires rd.Valid()
  {
    SmEvents(j, j.slave.sms) + AfterSms(j, rd)
  }

  lemma PlanAroundLists(j: Job, rd: FsmDc.Readings)
    requires rd.Valid()
    ensures Plan(j, rd) == BeforeLists(j) + ListEvents(j, Wanted(j)) + AfterLists(j, rd)
  {
    PlanAfterSms(j, rd);
    MapIsLists(j, j.slave.sms);
    AssignIsLists(j, j.slave.sms);
    ListEventsConcat(j, Mappings(AllPdos(j.slave.sms)), Assignments(j.slave.sms));
    hide UpToInit, ListEvents, AfterSms, SmEvents, Plan, MapEvents, AssignEvents, Mappings, Assignments;
  }

  lemma {:induction false} SmsSilent(j: Job, sms: seq<SmCfg>)
    requires MailboxInRam(j)
    ensures Silent(j, SmEvents(j, sms))
  {
    if sms == [] {
    } else {
      SmsSilent(j, sms[..|sms| - 1]);
    }
  }

  lemma {:induction false} FmmusSilent(j: Job, fmmus: seq<FmmuCfg>)
    requires MailboxInRam(j) && |fmmus| <= 16
    ensures Silent(j, FmmuEvents(j, fmmus))
  {
    if fmmus == [] {
    } else {
      FmmusSilent(j, fmmus[..|fmmus| - 1]);
    }
  }

  lemma AfterListsSilent(j: Job, rd: FsmDc.Readings)
    requires rd.Valid() && MailboxInRam(j) && |j.slave.fmmus| <= 16
    ensures Silent(j, AfterLists(j, rd))
  {
    SmsSilent(j, j.slave.sms);
    FmmusSilent(j, j.slave.fmmus);
    ClockSilent(j, rd);
    hide SmEvents, FmmuEvents, ClockEvents;
    assert Silent(j, FsmChange.ChangeEvents(j.station, SAFEOP)) && Silent(j, Watchdogs(j));
  }

  lemma ClockSilent(j: Job, rd: FsmDc.Readings)
    requires rd.Valid() && MailboxInRam(j)
    ensures Silent(j, ClockEvents(j, rd))
  {
  }

  /** After the bring-up the slave's object dictionary lists, for every PDO, exactly the
      configured entries, and for every sync manager exactly its PDOs, whatever it held
      before, provided the objects are distinct: each list exactly if it has at most 34 items.
      A longer one leaves a count of zero. */
  lemma ListsConfigured(od: Od, j: Job, rd: FsmDc.Readings, k: nat)
    requires rd.Valid() && MailboxInRam(j) && |j.slave.fmmus| <= 16 && j.mbox.station == j.station
    requires ListingsOk(Wanted(j)) && k < |Wanted(j)|
    ensures var od', l := OdPlayed(od, j, Plan(j, rd)), Wanted(j)[k];
      Shows(od', l.obj, l.items) && (Lists(od', l.obj, l.items) <==> |l.items| <= LIST_MAX)
  {
    hide Plan, BeforeLists, ListEvents, AfterLists, OdPlayed, Wanted, Lists, ListingsOk, Shows;
    PlanAroundLists(j, rd);
    AfterListsSilent(j, rd);
    var start := OdPlayed(od, j, BeforeLists(j));
    OdConcat(od, j, BeforeLists(j) + ListEvents(j, Wanted(j)), AfterLists(j, rd));
    OdConcat(od, j, BeforeLists(j), ListEvents(j, Wanted(j)));
    AllListed(start, j, Wanted(j), k);
    SilentKeeps(OdPlayed(start, j, ListEvents(j, Wanted(j))), j, AfterLists(j, rd));
    ShowsListIff(OdPlayed(od, j, Plan(j, rd)), Wanted(j)[k].obj, Wanted(j)[k].items);
  }
}
