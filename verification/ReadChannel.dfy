/** The driver's read loop, panda/kmod/main.c, on a ring that the firmware keeps writing: every step of a
    `ringbuf_write` may come between any two steps of `quadcopter_read`. */
module ReadChannel {
  import opened Basics
  import opened Ring
  import opened SharedRing
  import opened SharedRingSafety
  import opened RingSolo
  import opened Driver

  /** Where `quadcopter_read` is. `delivered` is what it has copied to the caller so far; `from` and `fill0` are the
      number of bytes consumed and the number waiting when it was called (history only). */
  datatype ReadCall =
    | NotCalled
    | AtLoop(count: nat, delivered: seq<byte>, from: nat, fill0: nat)
    | InRing(count: nat, delivered: seq<byte>, from: nat, fill0: nat)
    | Returned(count: nat, delivered: seq<byte>, from: nat, fill0: nat)

  datatype System = System(ring: State, call: ReadCall)

  datatype Action =
    | RingMoves(step: Step)
    | EnterRead(count: nat)
    | NextChunk(kbuf: seq<byte>)
    | ChunkDone
    | LeaveRead

  /** The firmware may do anything a producer can do; the reader's own calls begin and end in its loop. */
  predicate IsFree(step: Step) {
    IsProducerStep(step) || IsInnerStep(step)
  }

  ghost function Next(s: System, a: Action): (next: Option<System>)
    requires s.ring.WellFormed()
    ensures next.Some? ==> next.value.ring.WellFormed()
  {
    match (a, s.call)
    case (RingMoves(step), _) =>
      if IsFree(step) && Apply(s.ring, step).Some? then Some(s.(ring := Apply(s.ring, step).value)) else None
    case (EnterRead(count), NotCalled) => Some(Entered(s, count))
    case (EnterRead(count), Returned(_, _, _, _)) => Some(Entered(s, count))
    case (NextChunk(kbuf), AtLoop(count, delivered, from, fill0)) =>
      if |delivered| < count && |kbuf| == CHUNK && s.ring.consumer.RIdle? then
        Some(System(ConsumerStep(s.ring, BeginRead(kbuf, CHUNK)).value, InRing(count, delivered, from, fill0)))
      else None
    case (ChunkDone, InRing(count, delivered, from, fill0)) =>
      if s.ring.consumer.RReturned? then
        var n := s.ring.consumer.n;
        var now := delivered + s.ring.consumer.out[..n];
        Some(System(ConsumerStep(s.ring, EndRead).value,
                    if n == 0 then Returned(count, delivered, from, fill0) else AtLoop(count, now, from, fill0)))
      else None
    case (LeaveRead, AtLoop(count, delivered, from, fill0)) =>
      if |delivered| >= count then Some(s.(call := Returned(count, delivered, from, fill0))) else None
    case _ => None
  }

  ghost function Entered(s: System, count: nat): System
    requires s.ring.WellFormed()
  {
    s.(call := AtLoop(count, [], |s.ring.consumed|, |s.ring.Queue()|))
  }

  /** The state after `actions`, if each of them was possible. */
  ghost function RunReads(s: System, actions: seq<Action>): (end: Option<System>)
    requires s.ring.WellFormed()
    ensures end.Some? ==> end.value.ring.WellFormed()
    decreases |actions|
  {
    if actions == [] then Some(s)
    else
      match Next(s, actions[0])
      case None => None
      case Some(t) => RunReads(t, actions[1..])
  }

  /** What a `read` call remembers of the moment it was entered is so, and stays. */
  lemma ReadRemembersEntry(s: System, a: Action)
    requires s.ring.WellFormed() && Next(s, a).Some? && !Next(s, a).value.call.NotCalled?
    ensures var c, c' := s.call, Next(s, a).value.call;
      if a.EnterRead? then c'.count == a.count && c'.fill0 == |s.ring.Queue()| && c'.from == |s.ring.consumed|
      else !c.NotCalled? && c'.count == c.count && c'.fill0 == c.fill0 && c'.from == c.from
  {
    hide ConsumerStep, Apply;
  }

  /** The most that one `ringbuf_read` of the loop can return. */
  function Most(size: nat): nat
    requires size >= 1
  {
    Min(CHUNK, size - 1)
  }

  /** The guard under which nothing the firmware does can make the read overshoot: every `ringbuf_read` returns at most
      one byte, or `count` is a whole number of largest reads and that many bytes are waiting already. */
  predicate CannotOvershoot(size: nat, count: nat, fill: nat)
    requires size >= 1
  {
    Most(size) <= 1 || (IsWhole(count, Most(size)) && count <= fill)
  }

  /** So many bytes can have been delivered before another chunk is asked for or the loop ends. */
  predicate Bounded(size: nat, count: nat, fill0: nat, r: nat)
    requires size >= 1
  {
    && (r > 0 ==> r < count + Most(size))
    && (CannotOvershoot(size, count, fill0) ==> r <= count && (Most(size) > 1 ==> IsWhole(r, Most(size))))
  }

  /** The ring call in progress asks for a chunk, and at least `least` bytes were waiting when it began. */
  ghost predicate ReadingChunk(ring: State, least: int)
    requires ring.WellFormed()
  {
    match ring.consumer
    case RReturned(n, out) => Min(CHUNK, least) <= n <= Most(ring.size)
    case _ => Reading(ring.consumer, CHUNK) && least <= ring.consumer.fill0
  }

  ghost function JustTaken(ring: State): seq<byte>
    requires ring.WellFormed()
  {
    if ring.consumer.RReturned? then ring.consumer.out[..ring.consumer.n] else []
  }

  /** What has been delivered, and what the ring call in progress has taken, is what was consumed since the call. */
  ghost predicate CallInv(ring: State, call: ReadCall)
    requires ring.WellFormed()
  {
    match call
    case NotCalled => ring.consumer == RIdle
    case AtLoop(count, delivered, from, fill0) =>
      && fill0 <= ring.size - 1
      && ring.consumer == RIdle
      && from <= |ring.consumed| && ring.consumed[from..] == delivered
      && fill0 <= |delivered| + |ring.Queue()|
      && Bounded(ring.size, count, fill0, |delivered|)
    case InRing(count, delivered, from, fill0) =>
      && fill0 <= ring.size - 1
      && |delivered| < count
      && ReadingChunk(ring, fill0 - |delivered|)
      && from <= |ring.consumed| && ring.consumed[from..] == delivered + JustTaken(ring)
      && fill0 <= |delivered| + |JustTaken(ring)| + |ring.Queue()|
      && Bounded(ring.size, count, fill0, |delivered|)
    case Returned(count, delivered, from, fill0) =>
      && ring.consumer == RIdle
      && from <= |ring.consumed| && ring.consumed[from..] == delivered
      && Bounded(ring.size, count, fill0, |delivered|)
      && Min(count, fill0) <= |delivered|
  }

  ghost predicate SystemInv(s: System) {
    Inv(s.ring) && CallInv(s.ring, s.call)
  }

  lemma CallUnderProducer(s: System, step: Step)
    requires SystemInv(s) && IsProducerStep(step) && Apply(s.ring, step).Some?
    ensures SystemInv(System(Apply(s.ring, step).value, s.call))
  {
    StepKeepsInv(s.ring, step);
    FillAndFreeOnlyGrow(s.ring, step);
  }

  lemma CallUnderPublish(s: System)
    requires SystemInv(s) && ConsumerStep(s.ring, PublishRead).Some?
    ensures SystemInv(System(ConsumerStep(s.ring, PublishRead).value, s.call))
  {
    var t := ConsumerStep(s.ring, PublishRead).value;
    var out := s.ring.consumer.out[..s.ring.consumer.n];
    PublishReadKeepsInv(s.ring, PublishRead);
    DropOfSum(s.ring.consumed, out, s.call.from);
    hide Unread, Moved;
    assert |t.Queue()| == |s.ring.Queue()| - |out|;
    assert JustTaken(t) == out && s.call.delivered + [] == s.call.delivered;
  }

  lemma CallBeforePublish(s: System, step: Step)
    requires SystemInv(s) && IsInnerStep(step) && !IsProducerStep(step) && step != PublishRead
    requires ConsumerStep(s.ring, step).Some?
    ensures CallInv(ConsumerStep(s.ring, step).value, s.call)
  {
    hide Unread;
  }

  lemma CallUnderReading(s: System, step: Step)
    requires SystemInv(s) && IsInnerStep(step) && !IsProducerStep(step) && Apply(s.ring, step).Some?
    ensures SystemInv(System(Apply(s.ring, step).value, s.call))
  {
    StepKeepsInv(s.ring, step);
    if step == PublishRead {
      CallUnderPublish(s);
    } else {
      CallBeforePublish(s, step);
    }
  }

  lemma {:induction false} WholeApart(a: nat, b: nat, m: nat)
    requires m >= 1 && IsWhole(a, m) && IsWhole(b, m) && a < b
    ensures a + m <= b && IsWhole(a + m, m)
  {
    if a > 0 {
      WholeApart(a - m, b - m, m);
    }
  }

  lemma ChunkKeepsBound(size: nat, count: nat, fill0: nat, r: nat, n: nat)
    requires size >= 1 && r < count && Bounded(size, count, fill0, r)
    requires Min(CHUNK, fill0 - r) <= n <= Most(size)
    requires fill0 <= size - 1
    ensures Bounded(size, count, fill0, r + n)
  {
    if CannotOvershoot(size, count, fill0) && Most(size) > 1 {
      WholeApart(r, count, Most(size));
    }
  }

  lemma NextChunkKeepsInv(s: System, kbuf: seq<byte>)
    requires SystemInv(s) && Next(s, NextChunk(kbuf)).Some?
    ensures SystemInv(Next(s, NextChunk(kbuf)).value)
  {
    ConsumerKeepsInv(s.ring, BeginRead(kbuf, CHUNK));
    hide Unread;
    assert s.call.delivered + [] == s.call.delivered;
  }

  lemma ChunkDoneKeepsInv(s: System)
    requires SystemInv(s) && Next(s, ChunkDone).Some?
    ensures SystemInv(Next(s, ChunkDone).value)
  {
    ConsumerKeepsInv(s.ring, EndRead);
    ChunkKeepsBound(s.ring.size, s.call.count, s.call.fill0, |s.call.delivered|, s.ring.consumer.n);
    hide Unread, Bounded;
  }

  lemma LoopKeepsInv(s: System, a: Action)
    requires SystemInv(s) && !a.RingMoves? && Next(s, a).Some?
    ensures SystemInv(Next(s, a).value)
  {
    match a
    case EnterRead(count) => assert s.ring.consumed[|s.ring.consumed|..] == [];
    case NextChunk(kbuf) => NextChunkKeepsInv(s, kbuf);
    case ChunkDone => ChunkDoneKeepsInv(s);
    case _ =>
  }

  lemma NextKeepsInv(s: System, a: Action)
    requires SystemInv(s) && Next(s, a).Some?
    ensures SystemInv(Next(s, a).value)
  {
    if a.RingMoves? {
      if IsProducerStep(a.step) {
        CallUnderProducer(s, a.step);
      } else {
        CallUnderReading(s, a.step);
      }
    } else {
      LoopKeepsInv(s, a);
    }
  }

  lemma {:induction false} ReadsKeepInv(s: System, actions: seq<Action>)
    requires SystemInv(s) && RunReads(s, actions).Some?
    ensures SystemInv(RunReads(s, actions).value)
    decreases |actions|
  {
    if actions != [] {
      NextKeepsInv(s, actions[0]);
      ReadsKeepInv(Next(s, actions[0]).value, actions[1..]);
    }
  }

  /** In every run with a writing firmware, a `quadcopter_read` that returns has delivered exactly the next bytes of the
      stream, at least as many as were asked for and waiting, and fewer than a chunk more than were asked for. */
  lemma ReadDeliversNextBytes(start: System, actions: seq<Action>)
    requires Init(start.ring) && start.call == NotCalled && RunReads(start, actions).Some?
    ensures var s := RunReads(start, actions).value;
      s.call.Returned? ==>
        var r := |s.call.delivered|;
        && s.call.from + r <= |s.ring.produced|
        && s.call.delivered == s.ring.produced[s.call.from..s.call.from + r]
        && Min(s.call.count, s.call.fill0) <= r
        && (r == 0 || r < s.call.count + Most(s.ring.size))
        && (r == 0 || r < s.call.count + CHUNK)
  {
    assert start.ring.produced == start.ring.consumed + start.ring.Queue();
    ReadsKeepInv(start, actions);
    var s := RunReads(start, actions).value;
    if s.call.Returned? {
      assert s.call.delivered == s.ring.consumed[s.call.from..];
      assert s.ring.consumed == s.ring.produced[..|s.ring.consumed|];
    }
  }
}
