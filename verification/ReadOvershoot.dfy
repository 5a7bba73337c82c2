/** Exactly when `quadcopter_read` can deliver more bytes than it was asked for, with a firmware that writes meanwhile. */
module ReadOvershoot {
  import opened Basics
  import opened Ring
  import opened SharedRing
  import opened SharedRingSafety
  import opened RingSolo
  import opened Driver
  import opened ReadChannel

  lemma {:induction false} RunReadsConcat(s: System, a: seq<Action>, b: seq<Action>)
    requires s.ring.WellFormed() && RunReads(s, a).Some?
    ensures RunReads(s, a + b) == RunReads(RunReads(s, a).value, b)
    decreases |a|
  {
    if a == [] {
      assert a + b == b;
    } else {
      assert (a + b)[1..] == a[1..] + b;
      RunReadsConcat(Next(s, a[0]).value, a[1..], b);
    }
  }

  function Moves(steps: seq<Step>): seq<Action> {
    if steps == [] then [] else [RingMoves(steps[0])] + Moves(steps[1..])
  }

  /** The firmware does nothing. */
  ghost predicate ReaderAlone(actions: seq<Action>) {
    forall a :: a in actions && a.RingMoves? ==> IsInnerStep(a.step)
  }

  lemma {:induction false} MovesOfSteps(steps: seq<Step>)
    requires IsSolo(steps, false)
    ensures ReaderAlone(Moves(steps))
  {
    if steps != [] {
      MovesOfSteps(steps[1..]);
    }
  }

  /** What the ring can do by itself, the system can do. */
  lemma {:induction false} RunMoves(s: System, steps: seq<Step>)
    requires s.ring.WellFormed() && Run(s.ring, steps).Some?
    requires forall step :: step in steps ==> IsFree(step)
    ensures RunReads(s, Moves(steps)) == Some(System(Run(s.ring, steps).value, s.call))
    ensures SameCall(Moves(steps))
    decreases |steps|
  {
    if steps != [] {
      var t := System(Apply(s.ring, steps[0]).value, s.call);
      assert Next(s, RingMoves(steps[0])) == Some(t);
      RunMoves(t, steps[1..]);
    }
  }

  /** No other `quadcopter_read` begins. */
  ghost predicate SameCall(actions: seq<Action>) {
    forall a :: a in actions ==> !a.EnterRead?
  }

  ghost predicate Overshoots(s: System, count: nat, actions: seq<Action>)
    requires s.ring.WellFormed()
  {
    SameCall(actions) &&
    match RunReads(Entered(s, count), actions)
    case None => false
    case Some(t) => !t.call.NotCalled? && |t.call.delivered| > count
  }

  lemma {:induction false} CallStaysTheSame(s: System, actions: seq<Action>)
    requires s.ring.WellFormed() && !s.call.NotCalled? && SameCall(actions) && RunReads(s, actions).Some?
    ensures var t := RunReads(s, actions).value;
      !t.call.NotCalled? && t.call.count == s.call.count && t.call.fill0 == s.call.fill0 && t.ring.size == s.ring.size
    decreases |actions|
  {
    if actions != [] {
      CallStaysTheSame(Next(s, actions[0]).value, actions[1..]);
    }
  }

  /** The firmware writes `k` bytes between two steps of the reader. */
  lemma Feed(s: System, k: nat) returns (actions: seq<Action>)
    requires SystemInv(s) && s.ring.producer == WIdle && k <= s.ring.size - 1 - |s.ring.Queue()|
    ensures SameCall(actions) && RunReads(s, actions).Some?
    ensures var t := RunReads(s, actions).value;
      && SystemInv(t) && t.call == s.call && t.ring.producer == WIdle && t.ring.size == s.ring.size
      && |t.ring.Queue()| == |s.ring.Queue()| + k
  {
    var buf := seq(k, i => 0);
    var steps := WriteAlone(s.ring, buf);
    FillPlusRoom(s.ring.size, s.ring.writePos, s.ring.readPos);
    RunMoves(s, steps);
    actions := Moves(steps);
    ReadsKeepInv(s, actions);
  }

  const KBUF: seq<byte> := seq(CHUNK, i => 0)

  lemma BeginChunk(s: System)
    requires SystemInv(s) && s.call.AtLoop? && |s.call.delivered| < s.call.count
    ensures Next(s, NextChunk(KBUF)).Some?
    ensures var t := Next(s, NextChunk(KBUF)).value;
      && SystemInv(t) && Reading(t.ring.consumer, CHUNK) && t.ring.consumer.fill0 == |s.ring.Queue()|
      && t.call == InRing(s.call.count, s.call.delivered, s.call.from, s.call.fill0)
      && t.ring.producer == s.ring.producer && t.ring.produced == s.ring.produced
      && t.ring.consumed == s.ring.consumed && t.ring.size == s.ring.size
  {
    NextKeepsInv(s, NextChunk(KBUF));
  }

  lemma EndChunk(s: System)
    requires SystemInv(s) && s.call.InRing? && s.ring.consumer.RReturned? && s.ring.consumer.n > 0
    ensures Next(s, ChunkDone).Some?
    ensures var t := Next(s, ChunkDone).value;
      && SystemInv(t) && t.call.AtLoop? && t.call.count == s.call.count
      && |t.call.delivered| == |s.call.delivered| + s.ring.consumer.n
      && t.ring.producer == s.ring.producer && t.ring.produced == s.ring.produced
      && t.ring.consumed == s.ring.consumed && t.ring.size == s.ring.size
  {
    NextKeepsInv(s, ChunkDone);
  }

  /** One turn of the loop while the firmware does nothing takes what is there, up to a chunk. */
  lemma TakeChunk(s: System) returns (actions: seq<Action>)
    requires SystemInv(s) && s.call.AtLoop? && |s.call.delivered| < s.call.count && |s.ring.Queue()| > 0
    ensures SameCall(actions) && ReaderAlone(actions) && RunReads(s, actions).Some?
    ensures var t, n := RunReads(s, actions).value, Min(CHUNK, |s.ring.Queue()|);
      && SystemInv(t) && t.ring.producer == s.ring.producer && t.ring.size == s.ring.size
      && t.call.AtLoop? && t.call.count == s.call.count
      && |t.call.delivered| == |s.call.delivered| + n && |t.ring.Queue()| == |s.ring.Queue()| - n
  {
    BeginChunk(s);
    var asked := Next(s, NextChunk(KBUF)).value;
    var steps := FinishRead(asked.ring, CHUNK);
    RunMoves(asked, steps);
    ReadsKeepInv(asked, Moves(steps));
    var taken := RunReads(asked, Moves(steps)).value;
    var n := taken.ring.consumer.n;
    WaitingIsRest(s.ring);
    WaitingIsRest(taken.ring);
    hide Next, SystemInv;
    EndChunk(taken);
    var t := Next(taken, ChunkDone).value;
    SystemInvGivesInv(t);
    WaitingIsRest(t.ring);
    actions := [NextChunk(KBUF)] + Moves(steps) + [ChunkDone];
    MovesOfSteps(steps);
    RunReadsConcat(s, [NextChunk(KBUF)], Moves(steps));
    RunReadsConcat(s, [NextChunk(KBUF)] + Moves(steps), [ChunkDone]);
  }

  lemma SystemInvGivesInv(s: System)
    requires SystemInv(s)
    ensures Inv(s.ring)
  {
  }

  lemma WaitingIsRest(ring: State)
    requires Inv(ring)
    ensures |ring.Queue()| == |ring.produced| - |ring.consumed| <= ring.size - 1
  {
  }

  lemma Then(s: System, a: seq<Action>, b: seq<Action>)
    requires s.ring.WellFormed() && RunReads(s, a).Some? && SameCall(a) && SameCall(b)
    ensures RunReads(s, a + b) == RunReads(RunReads(s, a).value, b) && SameCall(a + b)
  {
    RunReadsConcat(s, a, b);
  }

  /** The firmware brings the number of waiting bytes to `fill`, and the loop turns once. */
  lemma FeedAndTake(s: System, fill: nat) returns (actions: seq<Action>)
    requires SystemInv(s) && s.call.AtLoop? && |s.call.delivered| < s.call.count && s.ring.producer == WIdle
    requires |s.ring.Queue()| <= fill <= s.ring.size - 1 && fill > 0
    ensures SameCall(actions) && RunReads(s, actions).Some?
    ensures var t, n := RunReads(s, actions).value, Min(CHUNK, fill);
      && SystemInv(t) && t.ring.producer == WIdle && t.ring.size == s.ring.size
      && t.call.AtLoop? && t.call.count == s.call.count
      && |t.call.delivered| == |s.call.delivered| + n && |t.ring.Queue()| == fill - n
  {
    var a := Feed(s, fill - |s.ring.Queue()|);
    var fed := RunReads(s, a).value;
    var b := TakeChunk(fed);
    Then(s, a, b);
    actions := a + b;
  }

  /** How the firmware makes the loop overshoot: whenever fewer bytes are waiting than one read can take, it decides how
      many the next read finds, and leaves exactly one byte to ask for before it writes more. */
  lemma {:induction false} ForceOvershoot(s: System) returns (actions: seq<Action>)
    requires SystemInv(s) && s.call.AtLoop? && |s.call.delivered| < s.call.count && s.ring.producer == WIdle
    requires !CannotOvershoot(s.ring.size, s.call.count - |s.call.delivered|, |s.ring.Queue()|)
    ensures SameCall(actions) && RunReads(s, actions).Some?
    ensures var t := RunReads(s, actions).value;
      t.call.AtLoop? && t.call.count == s.call.count && |t.call.delivered| > t.call.count
    decreases s.call.count - |s.call.delivered|
  {
    var left, fill, m := s.call.count - |s.call.delivered|, |s.ring.Queue()|, Most(s.ring.size);
    var wanted := if fill >= m then fill else if left < m then (if fill > left then fill else left + 1)
                  else (if fill > 0 then fill else 1);
    actions := FeedAndTake(s, wanted);
    var t := RunReads(s, actions).value;
    if |t.call.delivered| <= t.call.count {
      assert left >= m;
      assert fill >= m ==> (IsWhole(left, m) <==> IsWhole(left - m, m));
      var more := ForceOvershoot(t);
      Then(s, actions, more);
      actions := actions + more;
    }
  }

  /** A `quadcopter_read` of `count` bytes, called while the firmware is between two writes, can deliver more than `count`
      if and only if `CannotOvershoot` fails: some ring read can return two bytes, and `count` is not a whole number of
      largest ring reads all waiting already. */
  lemma OvershootIff(s: System, count: nat)
    requires SystemInv(s) && (s.call.NotCalled? || s.call.Returned?) && s.ring.producer == WIdle
    ensures (exists actions :: Overshoots(s, count, actions)) <==>
            !CannotOvershoot(s.ring.size, count, |s.ring.Queue()|)
  {
    var begun := Entered(s, count);
    NextKeepsInv(s, EnterRead(count));
    if CannotOvershoot(s.ring.size, count, |s.ring.Queue()|) {
      forall actions
        ensures !Overshoots(s, count, actions)
      {
        NoOvershoot(s, count, actions);
      }
    } else {
      var actions := ForceOvershoot(begun);
      assert Overshoots(s, count, actions);
    }
  }

  /** Under the guard no run overshoots, even one that begins in the middle of a write. */
  lemma NoOvershoot(s: System, count: nat, actions: seq<Action>)
    requires SystemInv(s) && (s.call.NotCalled? || s.call.Returned?)
    requires CannotOvershoot(s.ring.size, count, |s.ring.Queue()|)
    ensures !Overshoots(s, count, actions)
  {
    var begun := Entered(s, count);
    NextKeepsInv(s, EnterRead(count));
    if Overshoots(s, count, actions) {
      ReadsKeepInv(begun, actions);
      CallStaysTheSame(begun, actions);
      assert false;
    }
  }

  /** A read of one whole chunk from a ring that holds 100 bytes: the firmware adds 512 after the first ring read, and 612
      bytes are delivered. */
  lemma WholeChunkCanOvershoot(s: System) returns (actions: seq<Action>)
    requires SystemInv(s) && (s.call.NotCalled? || s.call.Returned?) && s.ring.producer == WIdle
    requires |s.ring.Queue()| == 100 && s.ring.size > CHUNK
    ensures Overshoots(s, CHUNK, actions)
    ensures |RunReads(Entered(s, CHUNK), actions).value.call.delivered| == 612
  {
    var begun := Entered(s, CHUNK);
    NextKeepsInv(s, EnterRead(CHUNK));
    var a := TakeChunk(begun);
    var t := RunReads(begun, a).value;
    var b := FeedAndTake(t, CHUNK);
    Then(begun, a, b);
    actions := a + b;
  }
}
