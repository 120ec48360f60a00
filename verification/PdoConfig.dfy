/** PDO mapping and assignment as CoE sequences (src/ethercat/fsm_pdo_entry.rs,
    src/ethercat/fsm_pdo.rs), and the SDO init list (src/ethercat/fsm_slave_config.rs:127-137). */
module PdoConfig {
  import opened Bytes
  import opened Config
  import opened Device
  import opened Ecrt
  import opened Coe
  import opened FsmCoe
  import opened Trace

  function Pack(e: PdoEntry): dword { e.index * 0x1_0000 + e.subindex * 0x100 + e.bitLen }

  type Request = r: SdoRequest | r.Valid() witness SdoRequest(Upload, 0, 0, [])

  /** The queue after pushing `rs` in order; what does not fit is dropped. */
  function PushAll(rs: seq<Request>): (ops: seq<Request>)
    ensures |ops| == if |rs| <= MAX_SEQ then |rs| else MAX_SEQ
  {
    if rs == [] then [] else Pushed(PushAll(rs[..|rs| - 1]), rs[|rs| - 1])
  }

  /** A sequence carries the first writes, as many as the queue holds; so all of them exactly
      if they are within its capacity. */
  lemma {:induction false} PushAllIff(rs: seq<Request>)
    ensures PushAll(rs) <= rs
    ensures PushAll(rs) == rs <==> |rs| <= 36
  {
    if rs == [] {
    } else {
      PushAllIff(rs[..|rs| - 1]);
      assert rs == rs[..|rs| - 1] + [rs[|rs| - 1]];
    }
  }

  lemma PushSnoc(rs: seq<Request>, r: Request)
    ensures PushAll(rs + [r]) == Pushed(PushAll(rs), r)
  {
    assert (rs + [r])[..|rs|] == rs;
  }

  /** Clear the count, write each item in its slot, commit the count. */
  function ListRequests(obj: word, items: seq<seq<byte>>): (rs: seq<Request>)
    ensures |rs| == |items| + 2
  {
    [DownloadOf(obj, 0, [0])] + ItemRequests(obj, items) + [DownloadOf(obj, 0, [|items| % 0x100])]
  }

  function ItemRequests(obj: word, items: seq<seq<byte>>): (rs: seq<Request>)
    ensures |rs| == |items|
  {
    seq(|items|, i requires 0 <= i < |items| => DownloadOf(obj, (i + 1) % 0x100, items[i]))
  }

  /** The writes that come before item `i` of a list. */
  function Until(obj: word, items: seq<seq<byte>>, i: nat): seq<Request>
    requires i <= |items|
  {
    [DownloadOf(obj, 0, [0])] + ItemRequests(obj, items)[..i]
  }

  lemma UntilSteps(obj: word, items: seq<seq<byte>>, i: nat)
    ensures Until(obj, items, 0) == [DownloadOf(obj, 0, [0])]
    ensures i < |items| ==>
      Until(obj, items, i + 1) == Until(obj, items, i) + [DownloadOf(obj, (i + 1) % 0x100, items[i])]
    ensures ListRequests(obj, items) == Until(obj, items, |items|) + [DownloadOf(obj, 0, [|items| % 0x100])]
  {
    assert ItemRequests(obj, items)[..|items|] == ItemRequests(obj, items);
  }

  function EntryItems(pdo: PdoCfg): (items: seq<seq<byte>>)
    ensures |items| == |pdo.entries|
  {
    seq(|pdo.entries|, i requires 0 <= i < |pdo.entries| => Le32(Pack(pdo.entries[i])))
  }

  function PdoItems(pdos: seq<PdoCfg>): (items: seq<seq<byte>>)
    ensures |items| == |pdos|
  {
    seq(|pdos|, i requires 0 <= i < |pdos| => Le16(pdos[i].index))
  }

  function MappingRequests(pdo: PdoCfg): seq<Request> { ListRequests(pdo.index, EntryItems(pdo)) }

  /** `0x1C10 + sync_index`, a 16-bit sum. */
  function AssignObject(sync: byte): word { 0x1C10 + sync }

  function AssignRequests(sync: byte,
      pdos: seq<PdoCfg>): seq<Request> { ListRequests(AssignObject(sync), PdoItems(pdos)) }

  function InitRequests(init: seq<SdoInit>): (rs: seq<Request>)
    ensures |rs| == |init|
  {
    seq(|init|, i requires 0 <= i < |init| => DownloadOf(init[i].index, init[i].subindex, init[i].data))
  }

  /** A new sequence on `mbox`, holding `rs`. */
  ghost predicate Loaded(s: CoeSeq, mbox: Mailbox, rs: seq<Request>)
    reads s, if s.coe != null then s.coe.Repr() else {}
  {
    s.Valid() && s.mbox == mbox && s.coe == null && s.cur == 0 && s.ops == PushAll(rs)
  }

  method PushOne(s: CoeSeq, ghost rs: seq<Request>, index: word, subindex: byte, data: seq<byte>)
    requires Loaded(s, s.mbox, rs)
    modifies s`ops
    ensures Loaded(s, s.mbox, rs + [DownloadOf(index, subindex, data)])
  {
    PushSnoc(rs, DownloadOf(index, subindex, data));
    s.Push(index, subindex, data);
  }

  method BuildMapping(mbox: Mailbox, pdo: PdoCfg, ghost dev: Device) returns (s: CoeSeq)
    ensures fresh(s.Repr()) && Loaded(s, mbox, MappingRequests(pdo)) && s.base == Record(dev).events
  {
    hide Record, Until, ListRequests, PushAll, Pack;
    ghost var all := EntryItems(pdo);
    NothingPushed();
    UntilSteps(pdo.index, all, 0);
    s := new CoeSeq(mbox, dev);
    PushOne(s, [], pdo.index, 0, [0]);
    assert [] + [DownloadOf(pdo.index, 0, [0])] == Until(pdo.index, all, 0);
    for i := 0 to |pdo.entries|
      invariant fresh(s) && s.coe == null && s.base == Record(dev).events && Loaded(s, mbox, Until(pdo.index, all, i))
    {
      UntilSteps(pdo.index, all, i);
      PushOne(s, Until(pdo.index, all, i), pdo.index, (i + 1) % 0x100, Le32(Pack(pdo.entries[i])));
    }
    PushOne(s, Until(pdo.index, all, |all|), pdo.index, 0, [|pdo.entries| % 0x100]);
  }

  method BuildAssign(mbox: Mailbox, sync: byte, pdos: seq<PdoCfg>, ghost dev: Device) returns (s: CoeSeq)
    ensures fresh(s.Repr()) && Loaded(s, mbox, AssignRequests(sync, pdos)) && s.base == Record(dev).events
  {
    hide Record, Until, ListRequests, PushAll;
    var obj := AssignObject(sync);
    ghost var all := PdoItems(pdos);
    NothingPushed();
    UntilSteps(obj, all, 0);
    s := new CoeSeq(mbox, dev);
    PushOne(s, [], obj, 0, [0]);
    assert [] + [DownloadOf(obj, 0, [0])] == Until(obj, all, 0);
    for i := 0 to |pdos|
      invariant fresh(s) && s.coe == null && s.base == Record(dev).events && Loaded(s, mbox, Until(obj, all, i))
    {
      UntilSteps(obj, all, i);
      PushOne(s, Until(obj, all, i), obj, (i + 1) % 0x100, Le16(pdos[i].index));
    }
    PushOne(s, Until(obj, all, |all|), obj, 0, [|pdos| % 0x100]);
  }

  lemma NothingPushed()
    ensures PushAll([]) == []
  {
  }

  method BuildInit(mbox: Mailbox, init: seq<SdoInit>, ghost dev: Device) returns (s: CoeSeq)
    ensures fresh(s.Repr()) && Loaded(s, mbox, InitRequests(init)) && s.base == Record(dev).events
  {
    hide Record;
    s := new CoeSeq(mbox, dev);
    for i := 0 to |init|
      invariant fresh(s) && s.coe == null && s.base == Record(dev).events
      invariant Loaded(s, mbox, InitRequests(init)[..i])
    {
      PushOne(s, InitRequests(init)[..i], init[i].index, init[i].subindex, init[i].data);
      assert InitRequests(init)[..i] + [DownloadOf(init[i].index, init[i].subindex, init[i].data)]
        == InitRequests(init)[..i + 1];
    }
    assert InitRequests(init)[..|init|] == InitRequests(init);
  }
}
