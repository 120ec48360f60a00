/** Bringing one slave to a state, mailbox windows first (src/ethercat/master.rs:573-666), and
    every cyclic slave down to PRE-OP (src/ethercat/master.rs:528-572). */
module PreOp {
  import opened Bytes
  import opened Datagram
  import opened Device
  import opened Ecrt
  import opened EscPages
  import opened Link
  import opened Trace
  import FsmChange

  /** Steps bringing a slave to a state can take. */
  const PREOP_STEPS: nat := 2 * EXCHANGE + 1 + FsmChange.CHANGE_STEPS

  datatype Stage = ConfigSm0 | ConfigSm1 | Change

  /** The mailbox windows a state with a mailbox needs. */
  function Windows(mbox: Mailbox, configure: bool): seq<Event> {
    if configure
    then [Wrote(mbox.station, SM0, MailboxOutPage(mbox.rxOffset, mbox.rxSize)),
          Wrote(mbox.station, SM1, MailboxInPage(mbox.txOffset, mbox.txSize))]
    else []
  }

  /** A slave brought to a state: windows first, then the change. */
  function PreEvents(mbox: Mailbox, target: byte, configure: bool): seq<Event> {
    Windows(mbox, configure) + FsmChange.ChangeEvents(mbox.station, target)
  }

  class PreOp {
    const mbox: Mailbox
    const target: byte
    const configure: bool
    var stage: Stage
    const link: Link
    const change: FsmChange.FsmChange
    /** The events on record when the operation began. */
    ghost const base: seq<Event>

    ghost function Repr(): set<object> { {this, link} + change.Repr() }

    constructor (mbox: Mailbox, target: byte, configure: bool, ghost dev: Device)
      requires target < 16
      ensures Valid() && fresh(Repr()) && Budget() == PREOP_STEPS && Linked(Record(dev)) && !Finished()
      ensures this.mbox == mbox && this.target == target && this.configure == configure && base == Record(dev).events
    {
      this.mbox, this.target, this.configure, stage := mbox, target, configure, ConfigSm0;
      link := new Link(128);
      change := new FsmChange.FsmChange(mbox.station, target, dev);
      base := Record(dev).events;
    }

    function Request(): seq<Req>
      reads this`stage
    {
      match stage
      case ConfigSm0 => [Req(FPWR, mbox.station, SM0, MailboxOutPage(mbox.rxOffset, mbox.rxSize))]
      case _ => [Req(FPWR, mbox.station, SM1, MailboxInPage(mbox.txOffset, mbox.txSize))]
    }

    ghost predicate Valid()
      reads Repr()
    {
      && link.Valid() && change.Valid() && change.link != link && change.station == mbox.station
        && change.target == target
      && (stage == Change ==> link.Idle())
      && (stage != Change ==>
        link.Carries(Request()) && change.Budget() == FsmChange.CHANGE_STEPS && change.state == FsmChange.WriteControl)
      && (!configure ==> stage != ConfigSm1 && link.Idle())
    }

    /** The record is what it was at the start, and what was achieved since. */
    ghost predicate Linked(t: Trace)
      reads Repr()
    {
      match stage
      case ConfigSm0 => t.events == base && link.Awaits(t)
      case ConfigSm1 => t.events == base + Windows(mbox, true)[..1] && link.Awaits(t)
      case Change => change.base == base + Windows(mbox, configure) && change.Linked(t)
    }

    ghost predicate Finished()
      reads this`stage, change`state
    {
      stage == Change && change.state == FsmChange.Done
    }

    ghost function Budget(): nat
      reads Repr()
    {
      match stage
      case ConfigSm0 => link.Budget() + EXCHANGE + 1 + FsmChange.CHANGE_STEPS
      case ConfigSm1 => link.Budget() + FsmChange.CHANGE_STEPS
      case Change => change.Budget()
    }

    /** One step. On success the slave has taken its mailbox windows, if the state needs them,
        and then shown the target; nothing else was acknowledged. */
    method Step(dev: Device, index: byte) returns (r: Outcome<bool>, next: byte)
      requires Valid() && Linked(Record(dev))
      modifies Repr(), dev
      ensures r.Ok? ==> Valid() && Linked(Record(dev)) && (r.value <==> Finished())
      ensures r.Ok? && !r.value ==> Budget() < old(Budget())
      ensures r.Ok? && r.value ==> Record(dev).events == base + PreEvents(mbox, target, configure)
    {
      hide Number, MailboxOutPage, MailboxInPage, Record, Note, FsmChange.ChangeEvents;
      next := index;
      if stage == Change {
        r, next := change.Step(dev, index);
        return;
      }
      assert link.Budget() > 0;
      if stage == ConfigSm0 && !configure {
        ToChange(dev);
        return Ok(false), next;
      }
      r, next := Configure(dev, index);
    }

    /** The windows are in place, or not needed: on to the state change. */
    method ToChange(ghost dev: Device)
      requires Valid() && stage != Change && link.Idle() && Record(dev).events == base + Windows(mbox, configure)
      modifies this`stage, change
      ensures Valid() && Linked(Record(dev)) && stage == Change && !Finished() && Budget() == FsmChange.CHANGE_STEPS
    {
      hide Record, Windows;
      change.Rebase(Record(dev));
      stage := Change;
    }

    /** Write the mailbox window due. */
    method Configure(dev: Device, index: byte) returns (r: Outcome<bool>, next: byte)
      requires Valid() && stage != Change && configure && Linked(Record(dev))
      modifies this`stage, link, change, dev
      ensures r.Ok? ==> Valid() && Linked(Record(dev)) && !Finished() && !r.value && Budget() < old(Budget())
    {
      hide Number, MailboxOutPage, MailboxInPage, Record, Note;
      assert link.Budget() > 0;
      ghost var q := Request()[0];
      assert Request() == [q];
      var a;
      a, next := link.Ask(dev, index, Request());
      match a
      case Err(e) => return Err(e), next;
      case Ok(None) => return Ok(false), next;
      case Ok(Some(bytes)) =>
        var reply := Parse(bytes);
        if reply.None? {
          return Err(FrameTooShort), next;
        }
        if reply.value.wkc != 1 {
          return Err(WorkingCounter), next;
        }
        WriteNoted(Quiet(old(Record(dev))), q, bytes);
        if stage == ConfigSm0 {
          stage := ConfigSm1;
        } else {
          ToChange(dev);
        }
        return Ok(false), next;
    }
  }

  // ---- All the way down ----

  /** Steps taking `n` slaves down can take. */
  function DownSteps(n: nat): nat { if n == 0 then 0 else FsmChange.CHANGE_STEPS + 1 + DownSteps(n - 1) }

  lemma DownStep(n: nat)
    ensures DownSteps(n + 1) == FsmChange.CHANGE_STEPS + 1 + DownSteps(n)
  {
  }

  lemma OneMore(s: seq<word>, i: nat)
    requires i < |s|
    ensures s[..i + 1] == s[..i] + [s[i]]
  {
  }

  class DownSeq {
    const stations: seq<word>
    var idx: nat
    var change: FsmChange.FsmChange?
    /** The slaves a change was begun for, in order. */
    ghost var visited: seq<word>
    /** How many frames had been offered to the wire when the sequence began. */
    ghost const from: nat

    ghost function Repr(): set<object>
      reads this`change
    {
      {this} + if change != null then change.Repr() else {}
    }

    constructor (stations: seq<word>, ghost dev: Device)
      ensures Valid() && fresh(Repr()) && Budget() == DownSteps(|stations|) && this.stations == stations
        && change == null
      ensures Tried(dev) && from == |dev.offered|
    {
      this.stations, idx, change, visited, from := stations, 0, null, [], |dev.offered|;
    }

    /** Every slave up to the current one has been tried once, in order. */
    ghost predicate Valid()
      reads this, Repr()
    {
      && idx <= |stations| && (change != null ==> idx < |stations|)
      && visited == stations[..if change == null then idx else idx + 1]
      && (change != null ==>
        change.Valid() && change.state != FsmChange.Done
        && change.station == stations[idx] && change.target == PREOP)
    }

    /** Every slave visited has been asked to come down, one after the other. */
    ghost predicate Tried(dev: Device)
      reads this`visited, dev`offered
    {
      from <= |dev.offered| && AskedDown(dev.offered[from..], visited)
    }

    /** The change under way is on record. */
    ghost predicate Linked(t: Trace)
      reads this, Repr()
    {
      change != null ==> change.Linked(t)
    }

    ghost function Budget(): nat
      reads this, Repr()
      requires Valid()
    {
      if change != null then change.Budget() + 1 + DownSteps(|stations| - idx - 1) else DownSteps(|stations| - idx)
    }

    /** One step; a slave that fails is skipped. At the end each slave has been visited once,
        and one is reported down only when it has shown PRE-OP. */
    method Step(dev: Device, index: byte) returns (done: bool, reached: Option<word>, next: byte)
      requires Valid() && Linked(Record(dev)) && Tried(dev)
      modifies Repr(), dev
      ensures Valid() && Linked(Record(dev)) && Tried(dev) && fresh(Repr() - old(Repr()))
      ensures done ==> visited == stations && change == null
      ensures !done ==> Budget() < old(Budget())
      ensures reached.Some? ==>
        old(idx) < |stations| && reached.value == stations[old(idx)]
          && EndsWith(Record(dev), FsmChange.ChangeEvents(reached.value, PREOP))
    {
      hide DownSteps, Record, AskedDown, EndsWith, FsmChange.FsmChange.Linked, FsmChange.FsmChange.Budget;
      next, reached := index, None;
      assert stations[..|stations|] == stations;
      if idx >= |stations| {
        return true, None, next;
      }
      var station := stations[idx];
      Begin(dev);
      var r;
      r, next := StepCurrent(dev, index, station, DownSteps(|stations| - idx - 1));
      if r.Ok? && !r.value {
        return false, None, next;
      }
      change, idx := null, idx + 1;
      return idx >= |stations|, if r.Ok? then Some(station) else None, next;
    }

    /** One step of the slave under way. */
    method StepCurrent(dev: Device, index: byte, ghost station: word, ghost left: nat)
      returns (r: Outcome<bool>, next: byte)
      requires Valid() && change != null && Linked(Record(dev)) && Begun(dev)
      requires station == change.station && left == DownSteps(|stations| - idx - 1)
      modifies change.Repr(), dev
      ensures Tried(dev)
      ensures r.Ok? && !r.value ==> Valid() && Linked(Record(dev)) && Budget() < old(Budget())
      ensures r.Ok? && r.value ==> EndsWith(Record(dev), FsmChange.ChangeEvents(station, PREOP))
      ensures left < old(Budget())
    {
      hide DownSteps, Record, FsmChange.ChangeEvents, EndsWith, AskedDown, Number, FsmChange.FsmChange.Valid,
        FsmChange.FsmChange.Budget;
      ghost var was := dev.offered[from..];
      r, next := change.Step(dev, index);
      assert was <= dev.offered[from..];
      if AskedDown(was, visited) {
        AskedLonger(was, dev.offered[from..], visited);
      } else {
        AskedNext(was, visited, index);
        assert dev.offered[from..] == was + [Number([DownReq(visited[|visited| - 1])], index)];
      }
      if r.Ok? && r.value {
        Ends(change.base, FsmChange.ChangeEvents(station, PREOP), Record(dev));
      }
    }

    /** All slaves visited have been asked, but perhaps the one just begun, which is about to be. */
    ghost predicate Begun(dev: Device)
      reads this, Repr(), dev`offered
    {
      && from <= |dev.offered|
      && (AskedDown(dev.offered[from..], visited)
          || (visited != [] && AskedDown(dev.offered[from..], visited[..|visited| - 1])
              && change != null && change.state != FsmChange.Done && change.link.Idle()
              && change.Request() == [DownReq(visited[|visited| - 1])]))
    }

    method Begin(ghost dev: Device)
      requires Valid() && idx < |stations| && Linked(Record(dev))
      modifies this`change, this`visited
      ensures Valid() && change != null && fresh(Repr() - old(Repr())) && Budget() == old(Budget())
        && Linked(Record(dev))
      ensures old(Tried(dev)) ==> Begun(dev)
    {
      hide DownSteps, Record, FsmChange.FsmChange.Linked;
      if change == null {
        OneMore(stations, idx);
        assert DownSteps(|stations| - idx) == FsmChange.CHANGE_STEPS + 1 + DownSteps(|stations| - idx - 1) by {
          DownStep(|stations| - idx - 1);
        }
        change := new FsmChange.FsmChange(stations[idx], PREOP, dev);
        visited := visited + [stations[idx]];
      }
    }
  }

  function DownReq(station: word): Req { Req(FPWR, station, AL_CONTROL, [PREOP, 0]) }

  /** The requests to come down to PRE-OP have been offered to the wire in this order. */
  ghost predicate AskedDown(offered: seq<seq<Dgram>>, stations: seq<word>)
    decreases |stations|
  {
    stations != [] ==>
      exists p :: AskedAt(offered, p, stations[|stations| - 1]) && AskedDown(offered[..p], stations[..|stations| - 1])
  }

  ghost predicate AskedAt(offered: seq<seq<Dgram>>, p: int, station: word) {
    0 <= p < |offered| && exists i :: offered[p] == Number([DownReq(station)], i)
  }

  lemma AskedLonger(was: seq<seq<Dgram>>, now: seq<seq<Dgram>>, stations: seq<word>)
    requires was <= now && AskedDown(was, stations)
    ensures AskedDown(now, stations)
  {
    hide Number;
    if stations != [] {
      var p :| AskedAt(was, p, stations[|stations| - 1]) && AskedDown(was[..p], stations[..|stations| - 1]);
      assert now[p] == was[p] && now[..p] == was[..p];
      assert AskedAt(now, p, stations[|stations| - 1]);
    }
  }

  lemma AskedNext(was: seq<seq<Dgram>>, stations: seq<word>, index: byte)
    requires stations != [] && AskedDown(was, stations[..|stations| - 1])
    ensures AskedDown(was + [Number([DownReq(stations[|stations| - 1])], index)], stations)
  {
    hide Number;
    var now := was + [Number([DownReq(stations[|stations| - 1])], index)];
    assert now[..|was|] == was && now[|was|] == Number([DownReq(stations[|stations| - 1])], index);
    assert AskedAt(now, |was|, stations[|stations| - 1]);
  }

  /** The last events on record. */
  predicate EndsWith(t: Trace, evs: seq<Event>) { |evs| <= |t.events| && t.events[|t.events| - |evs|..] == evs }

  lemma Ends(base: seq<Event>, evs: seq<Event>, t: Trace)
    requires t.events == base + evs
    ensures EndsWith(t, evs)
  {
  }
}
