/** The motion look-ahead ring (src/hal/motion_buffer.rs).

    `Ring` is the plain-queue meaning of the class `MotionRing`; whole runs of pushes and pops
    are the matter of `MotionRuns`. */
module MotionBuffer {
  import opened Bytes

  const DEPTH: nat := 32
  const SAMPLE_MAX: nat := 64
  const WRAP: nat := 0x1_0000_0000
  const HALF: nat := 0x8000_0000

  datatype Sample = Sample(tag: dword, payload: seq<byte>)

  /** The queue a ring stands for. */
  datatype Ring = Ring(q: seq<Sample>, underrun: bool, started: bool)

  /** `(b.wrapping_sub(a) as i32) > 0`. */
  predicate CycleBefore(a: dword, b: dword) {
    0 < (b - a) % WRAP < HALF
  }

  /** A payload cut or zero-filled to the configured sample length. */
  function FitTo(payload: seq<byte>, n: nat): (s: seq<byte>)
    ensures |s| == n
  {
    seq(n, i requires 0 <= i < n => if i < |payload| then payload[i] else 0)
  }

  function DropStale(q: seq<Sample>, current: dword): (r: seq<Sample>)
    ensures |r| <= |q| && r == q[|q| - |r|..]
  {
    if q != [] && CycleBefore(q[0].tag, current) then DropStale(q[1..], current) else q
  }

  function Push(r: Ring, s: Sample): Ring {
    if |r.q| >= DEPTH then r else Ring(r.q + [s], r.underrun, true)
  }

  function Pop(r: Ring, current: dword): (Ring, Option<seq<byte>>) {
    var q := DropStale(r.q, current);
    if q != [] && q[0].tag == current then (Ring(q[1..], false, r.started), Some(q[0].payload))
    else (Ring(q, r.started && q == [], r.started), None)
  }

  // ---- The circular buffer ----

  predicate Shape(data: seq<seq<byte>>, tag: seq<dword>, head: nat, len: nat) {
    |data| == DEPTH && |tag| == DEPTH && head < DEPTH && len <= DEPTH
  }

  /** The live slots, oldest first. */
  function Live(data: seq<seq<byte>>, tag: seq<dword>, head: nat, len: nat): (q: seq<Sample>)
    requires Shape(data, tag, head, len)
    ensures |q| == len
  {
    seq(len, i requires 0 <= i < len => Sample(tag[(head + i) % DEPTH], data[(head + i) % DEPTH]))
  }

  lemma LiveAdvance(data: seq<seq<byte>>, tag: seq<dword>, head: nat, len: nat)
    requires Shape(data, tag, head, len) && len > 0
    ensures Live(data, tag, (head + 1) % DEPTH, len - 1) == Live(data, tag, head, len)[1..]
    ensures Live(data, tag, head, len)[0] == Sample(tag[head], data[head])
  {
    var l, r := Live(data, tag, (head + 1) % DEPTH, len - 1), Live(data, tag, head, len)[1..];
    forall i | 0 <= i < len - 1
      ensures l[i] == r[i]
    {
      assert ((head + 1) % DEPTH + i) % DEPTH == (head + (i + 1)) % DEPTH;
    }
  }

  lemma LivePush(data: seq<seq<byte>>, tag: seq<dword>, head: nat, len: nat, s: Sample)
    requires Shape(data, tag, head, len) && len < DEPTH
    ensures var slot := (head + len) % DEPTH;
      Live(data[slot := s.payload], tag[slot := s.tag], head, len + 1) == Live(data, tag, head, len) + [s]
  {
    var slot := (head + len) % DEPTH;
    assert forall i {:trigger (head + i) % DEPTH} :: 0 <= i < len ==> (head + i) % DEPTH != slot;
  }

  class MotionRing {
    const data: array<seq<byte>>
    const tag: array<dword>
    var head: nat
    var len: nat
    const sampleLen: nat
    var underrun: bool
    var started: bool

    ghost predicate Valid()
      reads this, data, tag
    {
      && Shape(data[..], tag[..], head, len) && sampleLen <= SAMPLE_MAX
      && forall i :: 0 <= i < DEPTH ==> |data[i]| == sampleLen
    }

    ghost function Queue(): (q: seq<Sample>)
      reads this, data, tag
      requires Valid()
    {
      Live(data[..], tag[..], head, len)
    }

    ghost function Model(): Ring
      reads this, data, tag
      requires Valid()
    {
      Ring(Queue(), underrun, started)
    }

    constructor (sampleLen: nat)
      ensures Valid() && fresh(data) && fresh(tag)
      ensures this.sampleLen == if sampleLen > SAMPLE_MAX then SAMPLE_MAX else sampleLen
      ensures Model() == Ring([], false, false)
    {
      var n := if sampleLen > SAMPLE_MAX then SAMPLE_MAX else sampleLen;
      data := new seq<byte>[DEPTH](_ => Zeros(n));
      tag := new dword[DEPTH](_ => 0);
      this.sampleLen := n;
      head, len, underrun, started := 0, 0, false, false;
    }

    /** Whether a motion stream is configured. */
    predicate Active() { sampleLen > 0 }

    method PushSample(tag': dword, payload: seq<byte>) returns (ok: bool)
      requires Valid()
      modifies this`len, this`started, data, tag
      ensures Valid() && ok == (|old(Queue())| < DEPTH)
      ensures Model() == Push(old(Model()), Sample(tag', FitTo(payload, sampleLen)))
    {
      if len >= DEPTH {
        return false;
      }
      var slot := (head + len) % DEPTH;
      LivePush(data[..], tag[..], head, len, Sample(tag', FitTo(payload, sampleLen)));
      ghost var d, t := data[..], tag[..];
      data[slot] := FitTo(payload, sampleLen);
      tag[slot] := tag';
      assert data[..] == d[slot := FitTo(payload, sampleLen)] && tag[..] == t[slot := tag'];
      len := len + 1;
      started := true;
      return true;
    }

    /** Advance past the oldest sample. */
    method Advance()
      requires Valid() && len > 0
      modifies this`head, this`len
      ensures Valid() && len == old(len) - 1 && Queue() == old(Queue())[1..]
    {
      LiveAdvance(data[..], tag[..], head, len);
      head := (head + 1) % DEPTH;
      len := len - 1;
    }

    /** The discard loop of `pop`. */
    method DiscardStale(current: dword)
      requires Valid()
      modifies this`head, this`len
      ensures Valid() && Queue() == DropStale(old(Queue()), current)
    {
      while len > 0 && CycleBefore(tag[head], current)
        invariant Valid()
        invariant DropStale(Queue(), current) == DropStale(old(Queue()), current)
        decreases len
      {
        LiveAdvance(data[..], tag[..], head, len);
        Advance();
      }
      if len > 0 {
        LiveAdvance(data[..], tag[..], head, len);
      }
    }

    method PopSample(current: dword) returns (slot: Option<nat>)
      requires Valid()
      modifies this`head, this`len, this`underrun
      ensures Valid()
      ensures slot.Some? ==> slot.value < DEPTH
      ensures (Model(), if slot.Some? then Some(data[slot.value]) else None) == Pop(old(Model()), current)
    {
      hide Live, DropStale, CycleBefore;
      ghost var q := DropStale(Queue(), current);
      DiscardStale(current);
      HeadIs();
      if len > 0 && tag[head] == current {
        slot := Some(head);
        Advance();
        underrun := false;
        assert Model() == Ring(q[1..], false, started);
      } else {
        underrun := started && len == 0;
        slot := None;
        assert Model() == Ring(q, started && q == [], started);
      }
    }

    /** The oldest sample stands at `head`. */
    lemma HeadIs()
      requires Valid()
      ensures |Queue()| == len && head < data.Length == DEPTH && tag.Length == DEPTH
      ensures len > 0 ==> Queue()[0] == Sample(tag[head], data[head])
    {
      if len > 0 {
        LiveAdvance(data[..], tag[..], head, len);
      }
    }

    /** The payload bytes in `slot`. */
    function Payload(slot: nat): seq<byte>
      reads data
      requires slot < data.Length
    {
      data[slot]
    }
  }
}
