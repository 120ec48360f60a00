/** What a slave takes from its object dictionary after its bring-up: it decodes its mapping
    and assignment objects by itself (ETG.1000.6), and holds its init values
    (src/ethercat/fsm_pdo_entry.rs:16-18, src/ethercat/fsm_pdo.rs, src/ethercat/fsm_slave_config.rs:127-137). */
module OdReading {
  import opened Bytes
  import opened Config
  import opened Ecrt
  import opened Trace
  import opened Coe
  import opened PdoConfig
  import opened SlaveConfig
  import opened Replay
  import opened ObjectDictionary
  import FsmChange
  import FsmCoe
  import FsmDc

  // ---- The slave's decoding ----

  /** A mapping entry: index in the upper word, then subindex, then length in bits. */
  function ReadEntry(d: seq<byte>): Option<PdoEntry> {
    if |d| == 4 then Some(PdoEntry(FromLe16(d[2], d[3]), d[1], d[0])) else None
  }

  /** The first `n` entries of mapping object `obj`. */
  function ReadEntries(od: Od, obj: word, n: nat): Option<seq<PdoEntry>>
    requires n < 0x100
  {
    if n == 0 then Some([])
    else if (obj, n) !in od then None
    else
      match (ReadEntries(od, obj, n - 1), ReadEntry(od[(obj, n)]))
      case (Some(es), Some(e)) => Some(es + [e])
      case _ => None
  }

  /** As many entries as subindex zero says. */
  function ReadMapping(od: Od, obj: word): Option<seq<PdoEntry>> {
    if (obj, 0) in od && |od[(obj, 0)]| == 1 then ReadEntries(od, obj, od[(obj, 0)][0]) else None
  }

  /** The first `n` PDO indices of assignment object `obj`. */
  function ReadIndices(od: Od, obj: word, n: nat): Option<seq<word>>
    requires n < 0x100
  {
    if n == 0 then Some([])
    else if (obj, n) !in od || |od[(obj, n)]| != 2 then None
    else
      match ReadIndices(od, obj, n - 1)
      case Some(ps) => Some(ps + [FromLe16(od[(obj, n)][0], od[(obj, n)][1])])
      case None => None
  }

  function ReadAssignment(od: Od, obj: word): Option<seq<word>> {
    if (obj, 0) in od && |od[(obj, 0)]| == 1 then ReadIndices(od, obj, od[(obj, 0)][0]) else None
  }

  // ---- It finds what was configured ----

  lemma EntryRead(e: PdoEntry)
    ensures ReadEntry(Le32(Pack(e))) == Some(e)
  {
    var v := Pack(e);
    assert v / 0x1_0000 == e.index && v % 0x1_0000 == e.subindex * 0x100 + e.bitLen;
    var d := Le32(v);
    assert d[0] == (v % 0x1_0000) % 0x100 && d[1] == (v % 0x1_0000) / 0x100;
    assert d[2] == e.index % 0x100 && d[3] == e.index / 0x100;
  }

  lemma {:induction false} EntriesRead(od: Od, pdo: PdoCfg, n: nat)
    requires n <= |pdo.entries| < 0x100
    requires forall i :: 0 <= i < |pdo.entries| ==> Holds(od, pdo.index, i, EntryItems(pdo)[i])
    ensures ReadEntries(od, pdo.index, n) == Some(pdo.entries[..n])
  {
    hide Pack, ReadEntry, Le32;
    if n == 0 {
    } else {
      EntriesRead(od, pdo, n - 1);
      assert Holds(od, pdo.index, n - 1, EntryItems(pdo)[n - 1]);
      EntryRead(pdo.entries[n - 1]);
      assert pdo.entries[..n] == pdo.entries[..n - 1] + [pdo.entries[n - 1]];
    }
  }

  lemma {:induction false} IndicesRead(od: Od, obj: word, pdos: seq<PdoCfg>, n: nat)
    requires n <= |pdos| < 0x100
    requires forall i :: 0 <= i < |pdos| ==> Holds(od, obj, i, PdoItems(pdos)[i])
    ensures ReadIndices(od, obj, n) == Some(Indices(pdos[..n]))
  {
    if n == 0 {
    } else {
      IndicesRead(od, obj, pdos, n - 1);
      assert Holds(od, obj, n - 1, PdoItems(pdos)[n - 1]);
      assert Indices(pdos[..n]) == Indices(pdos[..n - 1]) + [pdos[n - 1].index];
    }
  }

  function Indices(pdos: seq<PdoCfg>): (r: seq<word>)
    ensures |r| == |pdos|
  {
    seq(|pdos|, i requires 0 <= i < |pdos| => pdos[i].index)
  }

  lemma MappingShown(od: Od, pdo: PdoCfg)
    requires Shows(od, pdo.index, EntryItems(pdo))
    ensures ReadMapping(od, pdo.index) == Some(pdo.entries) <==> |pdo.entries| <= 34
  {
    hide EntryItems;
    if |pdo.entries| <= 34 {
      EntriesRead(od, pdo, |pdo.entries|);
      assert pdo.entries[..|pdo.entries|] == pdo.entries;
    }
  }

  lemma AssignmentShown(od: Od, obj: word, pdos: seq<PdoCfg>)
    requires Shows(od, obj, PdoItems(pdos))
    ensures ReadAssignment(od, obj) == Some(Indices(pdos)) <==> |pdos| <= 34
  {
    hide PdoItems;
    if |pdos| <= 34 {
      IndicesRead(od, obj, pdos, |pdos|);
      assert pdos[..|pdos|] == pdos;
    }
  }

  // ---- Distinct objects ----

  /** No two PDOs share an index, no two sync managers an assignment object, and no PDO's
      index is an assignment object. */
  ghost predicate ObjectsApart(sms: seq<SmCfg>) {
    && (forall i, a, k, b ::
      (0 <= i < |sms| && 0 <= a < |sms[i].pdos| && 0 <= k < |sms| && 0 <= b < |sms[k].pdos|
        && sms[i].pdos[a].index == sms[k].pdos[b].index)
      ==> i == k && a == b)
    && (forall i, k :: 0 <= i < k < |sms| ==> sms[i].index != sms[k].index)
    && (forall i, k, p :: 0 <= i < |sms| && 0 <= k < |sms| && p in sms[k].pdos ==> p.index != 0x1C10 + sms[i].index)
  }

  /** Where a PDO stands among all of them. */
  lemma {:induction false} PdoAt(sms: seq<SmCfg>, i: nat, a: nat) returns (n: nat)
    requires i < |sms| && a < |sms[i].pdos|
    ensures n < |AllPdos(sms)| && AllPdos(sms)[n] == sms[i].pdos[a]
  {
    var m := |sms| - 1;
    if i == m {
      n := |AllPdos(sms[..m])| + a;
    } else {
      n := PdoAt(sms[..m], i, a);
    }
  }

  lemma {:induction false} PdoOf(sms: seq<SmCfg>, n: nat) returns (i: nat, a: nat)
    requires n < |AllPdos(sms)|
    ensures i < |sms| && a < |sms[i].pdos| && AllPdos(sms)[n] == sms[i].pdos[a]
  {
    var m := |sms| - 1;
    var init := AllPdos(sms[..m]);
    if n < |init| {
      i, a := PdoOf(sms[..m], n);
    } else {
      i, a := m, n - |init|;
    }
  }

  lemma {:induction false} AllApart(sms: seq<SmCfg>, x: nat, y: nat)
    requires ObjectsApart(sms) && x < y < |AllPdos(sms)|
    ensures AllPdos(sms)[x].index != AllPdos(sms)[y].index
  {
    var m := |sms| - 1;
    var init := AllPdos(sms[..m]);
    if y < |init| {
      ApartInit(sms);
      AllApart(sms[..m], x, y);
    } else if x < |init| {
      var i, a := PdoOf(sms[..m], x);
      assert sms[i].pdos[a].index != sms[m].pdos[y - |init|].index;
    } else {
      assert sms[m].pdos[x - |init|].index != sms[m].pdos[y - |init|].index;
    }
  }

  lemma ApartInit(sms: seq<SmCfg>)
    requires ObjectsApart(sms) && sms != []
    ensures ObjectsApart(sms[..|sms| - 1])
  {
  }

  lemma WantedOk(j: Job)
    requires ObjectsApart(j.slave.sms)
    ensures ListingsOk(Wanted(j))
  {
    var sms := j.slave.sms;
    var pdos, ls := AllPdos(sms), Wanted(j);
    forall x, y | 0 <= x < y < |ls|
      ensures ls[x].obj != ls[y].obj
    {
      if y < |pdos| {
        AllApart(sms, x, y);
      } else if x < |pdos| {
        var i, a := PdoOf(sms, x);
        assert sms[i].pdos[a] in sms[i].pdos;
      }
    }
    forall l | l in ls
      ensures ItemsOk(l.items)
    {
      ItemsSized(ls, l, pdos, sms);
    }
  }

  lemma ItemsSized(ls: seq<Listing>, l: Listing, pdos: seq<PdoCfg>, sms: seq<SmCfg>)
    requires ls == Mappings(pdos) + Assignments(sms) && l in ls
    ensures ItemsOk(l.items)
  {
    hide Pack, AssignObject, Le32, Le16;
    var k :| 0 <= k < |ls| && ls[k] == l;
    if k < |pdos| {
      forall d | d in EntryItems(pdos[k])
        ensures |d| == 4
      {
      }
    } else {
      forall d | d in PdoItems(sms[k - |pdos|].pdos)
        ensures |d| == 2
      {
      }
    }
  }

  /** After the bring-up, whatever its dictionary held before, the slave reads from the mapping
      object of every PDO just the configured entries, if there are at most 34. */
  lemma MappingsRead(od: Od, j: Job, rd: FsmDc.Readings, i: nat, a: nat)
    requires rd.Valid() && MailboxInRam(j) && |j.slave.fmmus| <= 16 && j.mbox.station == j.station
    requires ObjectsApart(j.slave.sms) && i < |j.slave.sms| && a < |j.slave.sms[i].pdos|
    ensures var pdo := j.slave.sms[i].pdos[a];
      ReadMapping(OdPlayed(od, j, Plan(j, rd)), pdo.index) == Some(pdo.entries) <==> |pdo.entries| <= 34
  {
    hide Plan, OdPlayed, Shows, ReadMapping, ListingsOk, EntryItems, PdoItems, MailboxInRam, ObjectsApart, Lists;
    var n := PdoAt(j.slave.sms, i, a);
    WantedOk(j);
    assert Wanted(j)[n] == Mappings(AllPdos(j.slave.sms))[n];
    ListsConfigured(od, j, rd, n);
    MappingShown(OdPlayed(od, j, Plan(j, rd)), j.slave.sms[i].pdos[a]);
  }

  /** And from object 0x1C10 and its number up, for every sync manager, just the indices of the
      PDOs configured for it, under the same bound. */
  lemma AssignmentsRead(od: Od, j: Job, rd: FsmDc.Readings, i: nat)
    requires rd.Valid() && MailboxInRam(j) && |j.slave.fmmus| <= 16 && j.mbox.station == j.station
    requires ObjectsApart(j.slave.sms) && i < |j.slave.sms|
    ensures var sm := j.slave.sms[i];
      ReadAssignment(OdPlayed(od, j, Plan(j, rd)), 0x1C10 + sm.index) == Some(Indices(sm.pdos)) <==> |sm.pdos| <= 34
  {
    hide Plan, OdPlayed, Shows, ReadAssignment, ListingsOk, EntryItems, PdoItems, MailboxInRam, ObjectsApart, Lists,
      AllPdos, Indices;
    var sms := j.slave.sms;
    var n := |AllPdos(sms)| + i;
    WantedOk(j);
    assert Wanted(j)[n] == Assignments(sms)[i];
    ListsConfigured(od, j, rd, n);
    AssignmentShown(OdPlayed(od, j, Plan(j, rd)), 0x1C10 + sms[i].index, sms[i].pdos);
  }

  // ---- Init values ----

  /** Lists leave every object but their own alone. */
  lemma {:induction false} ListsElsewhere(od: Od, j: Job, ls: seq<Listing>, key: (word, byte))
    requires j.mbox.station == j.station && forall l <- ls :: ItemsOk(l.items) && l.obj != key.0
    ensures SameAt(od, OdPlayed(od, j, ListEvents(j, ls)), key)
  {
    hide QueueEvents, ListRequests, OdPlayed, Shows, ItemsOk;
    if ls == [] {
      NothingPlayed(od, j);
    } else {
      var n := |ls| - 1;
      assert forall l <- ls[..n] :: l in ls;
      assert ls[n] in ls;
      ListsElsewhere(od, j, ls[..n], key);
      OdConcat(od, j, ListEvents(j, ls[..n]), QueueEvents(j, ListRequests(ls[n].obj, ls[n].items)));
      QueueLists(OdPlayed(od, j, ListEvents(j, ls[..n])), j, ls[n].obj, ls[n].items);
    }
  }

  lemma NothingPlayed(od: Od, j: Job)
    ensures OdPlayed(od, j, []) == od
  {
  }

  /** Of a queue's writes to one place the last one stands. */
  lemma {:induction false} LastStands(od: Od, ops: seq<Request>, i: nat)
    requires i < |ops|
    requires forall k :: i < k < |ops| ==> (ops[k].index, ops[k].subindex) != (ops[i].index, ops[i].subindex)
    ensures var od', key := WriteAll(od, ops), (ops[i].index, ops[i].subindex); key in od' && od'[key] == ops[i].data
  {
    var n := |ops| - 1;
    if i < n {
      LastStands(od, ops[..n], i);
    }
  }

  /** Every init value has something to write, in one expedited transfer. */
  predicate InitSized(init: seq<SdoInit>) { forall v <- init :: 1 <= |v.data| <= 4 }

  lemma InitQueued(od: Od, j: Job, i: nat)
    requires j.mbox.station == j.station && InitSized(j.slave.sdoInit) && i < |j.slave.sdoInit| && i < 36
    requires var init := j.slave.sdoInit;
      forall k :: i < k < |init| ==> (init[k].index, init[k].subindex) != (init[i].index, init[i].subindex)
    ensures var v, od' := j.slave.sdoInit[i], OdPlayed(od, j, QueueEvents(j, InitRequests(j.slave.sdoInit)));
      (v.index, v.subindex) in od' && od'[(v.index, v.subindex)] == v.data
  {
    var init, rs := j.slave.sdoInit, InitRequests(j.slave.sdoInit);
    var ops := PushAll(rs);
    PushAllIff(rs);
    forall r | r in ops
      ensures r.kind == Download && 1 <= |r.data| <= 4
    {
      var k :| 0 <= k < |ops| && ops[k] == r;
      assert init[k] in init && rs[k] == r;
    }
    QueueWrites(od, j, ops);
    forall k | i < k < |ops|
      ensures (ops[k].index, ops[k].subindex) != (ops[i].index, ops[i].subindex)
    {
      assert ops[k] == rs[k] && ops[i] == rs[i];
    }
    LastStands(od, ops, i);
    assert ops[i] == rs[i] && init[i] in init;
  }

  /** An init value among the first 36, neither written over by a later one nor by a list, is
      what the slave still holds after its bring-up. */
  lemma InitHeld(od: Od, j: Job, rd: FsmDc.Readings, i: nat)
    requires rd.Valid() && MailboxInRam(j) && |j.slave.fmmus| <= 16 && j.mbox.station == j.station
    requires InitSized(j.slave.sdoInit) && i < |j.slave.sdoInit| && i < 36
    requires var init := j.slave.sdoInit;
      forall k :: i < k < |init| ==> (init[k].index, init[k].subindex) != (init[i].index, init[i].subindex)
    requires forall sm <- j.slave.sms ::
      j.slave.sdoInit[i].index != 0x1C10 + sm.index && forall p <- sm.pdos :: j.slave.sdoInit[i].index != p.index
    ensures var v, od' := j.slave.sdoInit[i], OdPlayed(od, j, Plan(j, rd));
      (v.index, v.subindex) in od' && od'[(v.index, v.subindex)] == v.data
  {
    hide Plan, OdPlayed, ListEvents, AfterLists, QueueEvents, InitRequests, InitSized, ItemsOk, MailboxInRam, UpToPreop,
      Wanted;
    var v := j.slave.sdoInit[i];
    PlanAroundLists(j, rd);
    AfterListsSilent(j, rd);
    OdConcat(od, j, BeforeLists(j) + ListEvents(j, Wanted(j)), AfterLists(j, rd));
    OdConcat(od, j, BeforeLists(j), ListEvents(j, Wanted(j)));
    OdConcat(od, j, UpToPreop(j), QueueEvents(j, InitRequests(j.slave.sdoInit)));
    InitQueued(OdPlayed(od, j, UpToPreop(j)), j, i);
    var start := OdPlayed(od, j, BeforeLists(j));
    ListedElsewhere(j, v.index);
    ListsElsewhere(start, j, Wanted(j), (v.index, v.subindex));
    SilentKeeps(OdPlayed(start, j, ListEvents(j, Wanted(j))), j, AfterLists(j, rd));
  }

  lemma ListedElsewhere(j: Job, index: word)
    requires forall sm <- j.slave.sms :: index != 0x1C10 + sm.index && forall p <- sm.pdos :: index != p.index
    ensures forall l <- Wanted(j) :: ItemsOk(l.items) && l.obj != index
  {
    var sms, pdos := j.slave.sms, AllPdos(j.slave.sms);
    forall l | l in Wanted(j)
      ensures ItemsOk(l.items) && l.obj != index
    {
      ItemsSized(Wanted(j), l, pdos, sms);
      var k :| 0 <= k < |Wanted(j)| && Wanted(j)[k] == l;
      if k < |pdos| {
        var i, a := PdoOf(sms, k);
        assert sms[i] in sms && sms[i].pdos[a] in sms[i].pdos;
      } else {
        assert sms[k - |pdos|] in sms;
      }
    }
  }
}
