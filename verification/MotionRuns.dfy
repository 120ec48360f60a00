/** Whole runs of the motion ring against unwrapped cycle numbers
    (src/hal/motion_buffer.rs). The host pushes samples in increasing due order, the
    cyclic task pops once per cycle; both see only 32-bit tags. */
module MotionRuns {
  import opened Bytes
  import opened MotionBuffer

  /** An accepted sample: due on cycle `due`, pushed when the next pop was for cycle `at`. */
  datatype Rec = Rec(due: nat, payload: seq<byte>, at: nat) {
    predicate OnTime() { due >= at }
    function Tagged(): Sample { Sample(due % WRAP, payload) }
  }

  datatype Event = Pushed(due: nat, payload: seq<byte>) | Popped

  /** The ring together with the history of a run: what is still queued, what has left
      it, and what was handed out on which cycle. */
  datatype Run = Run(ring: Ring, queue: seq<Rec>, gone: seq<Rec>, delivered: seq<(nat, seq<byte>)>, clock: nat)

  function Next(r: Run, e: Event): Run {
    match e
    case Pushed(due, payload) =>
      Run(Push(r.ring, Sample(due % WRAP, payload)),
          if |r.ring.q| < DEPTH then r.queue + [Rec(due, payload, r.clock)] else r.queue,
          r.gone, r.delivered, r.clock)
    case Popped =>
      var (ring, out) := Pop(r.ring, r.clock % WRAP);
      var left := if |ring.q| <= |r.queue| then |r.queue| - |ring.q| else 0;
      Run(ring, r.queue[left..], r.gone + r.queue[..left],
          if out.Some? then r.delivered + [(r.clock, out.value)] else r.delivered, r.clock + 1)
  }

  function Start(clock: nat): Run { Run(Ring([], false, false), [], [], [], clock) }

  predicate Increasing(s: seq<Rec>) {
    forall i, j :: 0 <= i < j < |s| ==> s[i].due < s[j].due
  }

  /** What the host promises: due cycles increase, and at each pop every queued sample is
      less than 2^31 cycles away from the clock. */
  predicate Allowed(r: Run, e: Event) {
    match e
    case Pushed(due, _) => forall x <- r.gone + r.queue :: x.due < due
    case Popped => forall x <- r.queue :: x.due < r.clock + HALF && r.clock < x.due + HALF
  }

  /** The hand-outs a departed history calls for: each punctual sample, at its own cycle. */
  function Deliveries(gone: seq<Rec>): seq<(nat, seq<byte>)> {
    if gone == [] then []
    else
      var last := gone[|gone| - 1];
      Deliveries(gone[..|gone| - 1]) + if last.OnTime() then [(last.due, last.payload)] else []
  }

  function StaleCount(gone: seq<Rec>): nat {
    if gone == [] then 0
    else StaleCount(gone[..|gone| - 1]) + if gone[|gone| - 1].OnTime() then 0 else 1
  }

  function Tags(queue: seq<Rec>): (q: seq<Sample>)
    ensures |q| == |queue|
  {
    seq(|queue|, i requires 0 <= i < |queue| => queue[i].Tagged())
  }

  ghost predicate Inv(r: Run) {
    && r.ring.q == Tags(r.queue)
    && Increasing(r.gone + r.queue)
    && (forall x <- r.queue :: x.at <= r.clock && (x.OnTime() ==> x.due >= r.clock))
    && r.delivered == Deliveries(r.gone)
  }

  /** Inside the window, 32-bit tags order and identify cycles faithfully. */
  lemma WindowTags(due: nat, clock: nat)
    requires due < clock + HALF && clock < due + HALF
    ensures CycleBefore(due % WRAP, clock % WRAP) <==> due < clock
    ensures due % WRAP == clock % WRAP <==> due == clock
  {
    var a, b := due / WRAP, clock / WRAP;
    var x, y := due % WRAP, clock % WRAP;
    assert due == WRAP * a + x && clock == WRAP * b + y;
    assert -1 <= a - b <= 1;
  }

  function PastCount(queue: seq<Rec>, clock: nat): (n: nat)
    ensures n <= |queue|
    ensures forall i :: 0 <= i < n ==> queue[i].due < clock
    ensures n < |queue| ==> queue[n].due >= clock
  {
    if queue != [] && queue[0].due < clock then 1 + PastCount(queue[1..], clock) else 0
  }

  lemma {:induction false} DropMatches(queue: seq<Rec>, clock: nat)
    requires forall x <- queue :: x.due < clock + HALF && clock < x.due + HALF
    ensures DropStale(Tags(queue), clock % WRAP) == Tags(queue[PastCount(queue, clock)..])
  {
    if queue == [] {
    } else {
      WindowTags(queue[0].due, clock);
      assert Tags(queue)[1..] == Tags(queue[1..]);
      if queue[0].due < clock {
        DropMatches(queue[1..], clock);
        var n := PastCount(queue[1..], clock);
        assert queue[1..][n..] == queue[n + 1..];
      } else {
        assert queue[0..] == queue;
      }
    }
  }

  lemma {:induction false} DeliveriesAllStale(gone: seq<Rec>, more: seq<Rec>)
    requires forall x <- more :: !x.OnTime()
    ensures Deliveries(gone + more) == Deliveries(gone)
  {
    if more == [] {
      assert gone + more == gone;
    } else {
      var n := |more| - 1;
      DeliveriesAllStale(gone, more[..n]);
      assert (gone + more)[..|gone + more| - 1] == gone + more[..n];
    }
  }

  lemma DeliveriesSnoc(gone: seq<Rec>, x: Rec)
    ensures Deliveries(gone + [x]) == Deliveries(gone) + if x.OnTime() then [(x.due, x.payload)] else []
  {
    assert (gone + [x])[..|gone|] == gone;
  }

  lemma PushKeepsInv(r: Run, due: nat, payload: seq<byte>)
    requires Inv(r) && Allowed(r, Pushed(due, payload))
    ensures Inv(Next(r, Pushed(due, payload)))
  {
    if |r.ring.q| < DEPTH {
      var x := Rec(due, payload, r.clock);
      assert Tags(r.queue + [x]) == Tags(r.queue) + [x.Tagged()];
      var all := r.gone + r.queue;
      assert r.gone + (r.queue + [x]) == all + [x];
      forall i, j | 0 <= i < j < |all + [x]|
        ensures (all + [x])[i].due < (all + [x])[j].due
      {
        if j == |all| {
          assert all[i] in all;
        }
      }
    }
  }

  /** Whether the pop of this cycle finds its sample. */
  predicate Hit(r: Run) {
    var n := PastCount(r.queue, r.clock);
    n < |r.queue| && r.queue[n].due == r.clock
  }

  /** How many samples leave the ring in the pop of this cycle. */
  function Leaving(r: Run): (n: nat)
    ensures n <= |r.queue|
  {
    PastCount(r.queue, r.clock) + if Hit(r) then 1 else 0
  }

  /** A pop discards what is overdue and hands out the sample due now, if it is there. */
  lemma PopEffect(r: Run)
    requires r.ring.q == Tags(r.queue) && Allowed(r, Popped)
    ensures var n, r' := Leaving(r), Next(r, Popped);
      && r'.ring.q == Tags(r.queue[n..])
      && r'.queue == r.queue[n..] && r'.gone == r.gone + r.queue[..n] && r'.clock == r.clock + 1
      && r'.delivered == r.delivered + if Hit(r) then [(r.clock, r.queue[n - 1].payload)] else []
  {
    hide Pop, PastCount, Tags;
    PopOnTags(r.ring, r.queue, r.clock);
  }

  lemma PopOnTags(ring: Ring, queue: seq<Rec>, clock: nat)
    requires ring.q == Tags(queue)
    requires forall x <- queue :: x.due < clock + HALF && clock < x.due + HALF
    ensures var p := PastCount(queue, clock);
      var hit := p < |queue| && queue[p].due == clock;
      && Pop(ring, clock % WRAP).0.q == Tags(queue[if hit then p + 1 else p..])
      && Pop(ring, clock % WRAP).1 == if hit then Some(queue[p].payload) else None
  {
    hide DropStale, CycleBefore, PastCount;
    var p := PastCount(queue, clock);
    DropMatches(queue, clock);
    if p < |queue| {
      var rest := queue[p..];
      assert rest[0] == queue[p] && Tags(rest)[0] == rest[0].Tagged();
      WindowTags(rest[0].due, clock);
      assert Tags(rest)[1..] == Tags(queue[p + 1..]);
    }
  }

  /** What leaves calls for exactly what is handed out. */
  lemma LeavingDeliveries(r: Run)
    requires forall x <- r.queue :: x.at <= r.clock && (x.OnTime() ==> x.due >= r.clock)
    ensures Deliveries(r.gone + r.queue[..Leaving(r)])
      == Deliveries(r.gone) + if Hit(r) then [(r.clock, r.queue[Leaving(r) - 1].payload)] else []
  {
    var p := PastCount(r.queue, r.clock);
    DeliveriesAllStale(r.gone, r.queue[..p]);
    if Hit(r) {
      assert r.gone + r.queue[..p + 1] == (r.gone + r.queue[..p]) + [r.queue[p]];
      DeliveriesSnoc(r.gone + r.queue[..p], r.queue[p]);
    }
  }

  lemma QueueIncreasing(gone: seq<Rec>, queue: seq<Rec>, i: nat, j: nat)
    requires Increasing(gone + queue) && i < j < |queue|
    ensures queue[i].due < queue[j].due
  {
    assert (gone + queue)[|gone| + i] == queue[i] && (gone + queue)[|gone| + j] == queue[j];
  }

  /** Whatever stays queued after the pop is late or due on a later cycle. */
  lemma RestIsLater(r: Run, i: nat)
    requires Inv(r) && Leaving(r) <= i < |r.queue| && r.queue[i].OnTime()
    ensures r.queue[i].due >= r.clock + 1
  {
    var p := PastCount(r.queue, r.clock);
    assert r.queue[i] in r.queue;
    if p < i {
      QueueIncreasing(r.gone, r.queue, p, i);
    }
  }

  lemma PopKeepsInv(r: Run)
    requires Inv(r) && Allowed(r, Popped)
    ensures Inv(Next(r, Popped))
  {
    hide Next, Tags, Deliveries, Leaving, Hit, PastCount, Increasing, Allowed;
    var r', n := Next(r, Popped), Leaving(r);
    PopEffect(r);
    LeavingDeliveries(r);
    assert r'.gone + r'.queue == r.gone + r.queue;
    forall x | x in r'.queue
      ensures x.at <= r'.clock && (x.OnTime() ==> x.due >= r'.clock)
    {
      var i :| 0 <= i < |r.queue[n..]| && r.queue[n..][i] == x;
      assert x == r.queue[n + i] && x in r.queue;
      if x.OnTime() {
        RestIsLater(r, n + i);
      }
    }
  }

  lemma StepKeepsInv(r: Run, e: Event)
    requires Inv(r) && Allowed(r, e)
    ensures Inv(Next(r, e))
  {
    match e
    case Pushed(due, payload) => PushKeepsInv(r, due, payload);
    case Popped => PopKeepsInv(r);
  }

  function After(r: Run, es: seq<Event>): Run
    decreases |es|
  {
    if es == [] then r else After(Next(r, es[0]), es[1..])
  }

  ghost predicate AllAllowed(r: Run, es: seq<Event>)
    decreases |es|
  {
    es != [] ==> Allowed(r, es[0]) && AllAllowed(Next(r, es[0]), es[1..])
  }

  lemma {:induction false} RunKeepsInv(r: Run, es: seq<Event>)
    requires Inv(r) && AllAllowed(r, es)
    ensures Inv(After(r, es))
    decreases |es|
  {
    if es != [] {
      StepKeepsInv(r, es[0]);
      RunKeepsInv(Next(r, es[0]), es[1..]);
    }
  }

  lemma StartInv(clock: nat)
    ensures Inv(Start(clock))
  {
  }

  lemma {:induction false} DeliveriesCount(gone: seq<Rec>)
    ensures |gone| == |Deliveries(gone)| + StaleCount(gone)
  {
    if gone != [] {
      DeliveriesCount(gone[..|gone| - 1]);
    }
  }

  /** The ring is a plain queue over any run: what was handed out is exactly the punctual
      samples that have left, each on its own cycle with its own payload and in order, and
      every accepted sample is delivered, discarded as stale, or still queued. */
  lemma RunRefinesQueue(clock: nat, es: seq<Event>)
    requires AllAllowed(Start(clock), es)
    ensures var r := After(Start(clock), es);
      && r.delivered == Deliveries(r.gone)
      && r.ring.q == Tags(r.queue)
      && |r.gone| + |r.queue| == |r.delivered| + StaleCount(r.gone) + |r.ring.q|
  {
    RunKeepsInv(Start(clock), es);
    DeliveriesCount(After(Start(clock), es).gone);
  }

  /** No punctual sample is lost: once its cycle has passed, it has been handed out. */
  lemma PunctualIsDelivered(clock: nat, es: seq<Event>, x: Rec)
    requires AllAllowed(Start(clock), es)
    requires var r := After(Start(clock), es); x in r.gone + r.queue && x.OnTime() && x.due < r.clock
    ensures (x.due, x.payload) in After(Start(clock), es).delivered
  {
    hide *;
    StartInv(clock);
    RunKeepsInv(Start(clock), es);
    GoneIfPast(After(Start(clock), es), x);
  }

  lemma GoneIfPast(r: Run, x: Rec)
    requires Inv(r) && x in r.gone + r.queue && x.OnTime() && x.due < r.clock
    ensures (x.due, x.payload) in r.delivered
  {
    assert x !in r.queue;
    assert x in r.gone;
    DeliveriesHas(r.gone, x);
  }

  lemma {:induction false} DeliveriesHas(gone: seq<Rec>, x: Rec)
    requires x in gone && x.OnTime()
    ensures (x.due, x.payload) in Deliveries(gone)
  {
    var n := |gone| - 1;
    if gone[n] == x {
      assert (x.due, x.payload) in [(x.due, x.payload)];
    } else {
      assert x in gone[..n];
      DeliveriesHas(gone[..n], x);
    }
  }

  // ---- Underruns ----

  /** Streaming has begun exactly if something was accepted, and what has left was due before
      the clock. */
  ghost predicate Begun(r: Run) {
    (r.ring.started <==> r.gone + r.queue != []) && forall x <- r.gone :: x.due < r.clock
  }

  lemma StepKeepsBegun(r: Run, e: Event)
    requires Inv(r) && Allowed(r, e) && Begun(r)
    ensures Begun(Next(r, e))
  {
    match e
    case Pushed(due, payload) => assert r.ring.q == Tags(r.queue);
    case Popped => PopKeepsBegun(r);
  }

  lemma PopKeepsBegun(r: Run)
    requires Inv(r) && Allowed(r, Popped) && Begun(r)
    ensures Begun(Next(r, Popped))
  {
    hide Next, Tags, Deliveries, Increasing, Allowed, Leaving, Hit;
    PopEffect(r);
    var r', n := Next(r, Popped), Leaving(r);
    assert r'.gone + r'.queue == r.gone + r.queue;
    PopStarted(r);
    forall x | x in r'.gone
      ensures x.due < r'.clock
    {
      if x !in r.gone {
        var i :| 0 <= i < n && r.queue[..n][i] == x;
        LeavingPast(r, i);
      }
    }
  }

  lemma PopStarted(r: Run)
    ensures Next(r, Popped).ring.started == r.ring.started
  {
  }

  lemma LeavingPast(r: Run, i: nat)
    requires i < Leaving(r)
    ensures r.queue[i].due <= r.clock
  {
  }

  lemma {:induction false} RunKeepsBegun(r: Run, es: seq<Event>)
    requires Inv(r) && AllAllowed(r, es) && Begun(r)
    ensures Begun(After(r, es))
    decreases |es|
  {
    hide Inv, Allowed, Begun, Next;
    if es != [] {
      StepKeepsInv(r, es[0]);
      StepKeepsBegun(r, es[0]);
      RunKeepsBegun(Next(r, es[0]), es[1..]);
    }
  }

  /** A pop underruns exactly if it leaves the ring empty-handed: everything still queued is
      overdue. */
  lemma PopUnderruns(r: Run)
    requires Inv(r) && Allowed(r, Popped)
    ensures Next(r, Popped).ring.underrun <==> r.ring.started && forall x <- r.queue :: x.due < r.clock
  {
    hide Deliveries, Increasing;
    var p := PastCount(r.queue, r.clock);
    PopOnTags(r.ring, r.queue, r.clock);
    PopRaises(r.ring, r.clock % WRAP);
    hide Pop, Tags, PastCount;
    if p < |r.queue| {
      assert r.queue[p] in r.queue;
    } else {
      forall x | x in r.queue
        ensures x.due < r.clock
      {
        var i :| 0 <= i < |r.queue| && r.queue[i] == x;
      }
    }
  }

  lemma PopRaises(ring: Ring, current: dword)
    ensures var (ring', out) := Pop(ring, current); ring'.underrun <==> out.None? && ring.started && ring'.q == []
  {
  }

  /** After any run, the next pop raises an underrun exactly if something has been accepted
      and all that ever was is overdue: nothing is due now, nothing is left for later. */
  lemma UnderrunIff(clock: nat, es: seq<Event>)
    requires AllAllowed(Start(clock), es) && Allowed(After(Start(clock), es), Popped)
    ensures var r := After(Start(clock), es);
      Next(r, Popped).ring.underrun <==> r.gone + r.queue != [] && forall x <- r.gone + r.queue :: x.due < r.clock
  {
    hide Next, Allowed, Inv, After, AllAllowed;
    StartInv(clock);
    RunKeepsInv(Start(clock), es);
    RunKeepsBegun(Start(clock), es);
    PopUnderruns(After(Start(clock), es));
  }
}
