/** The command channel gets things done: from every reachable state it can be run until everything sent has been
    dispatched. */
module ChannelProgress {
  import opened Basics
  import opened Ring
  import opened SharedRing
  import opened SharedRingSafety
  import opened RingSolo
  import opened Frames
  import opened Driver
  import opened Channel
  import opened ChannelSafety

  /** The host sends nothing new. */
  ghost predicate NothingNew(actions: seq<Action>) {
    forall a :: a in actions ==> !a.SendCommand?
  }

  /** `t` can be reached from `s`. */
  ghost predicate Leads(s: System, actions: seq<Action>, t: System)
    requires s.ring.WellFormed()
  {
    NothingNew(actions) && RunSystem(s, actions) == Some(t)
  }

  lemma {:induction false} Joins(s: System, a: seq<Action>, t: System, b: seq<Action>, u: System)
    requires s.ring.WellFormed() && t.ring.WellFormed() && Leads(s, a, t) && Leads(t, b, u)
    ensures Leads(s, a + b, u)
    decreases |a|
  {
    if a == [] {
      assert a + b == b;
    } else {
      assert (a + b)[1..] == a[1..] + b;
      Joins(Next(s, a[0]).value, a[1..], t, b, u);
    }
  }

  lemma One(s: System, a: Action)
    requires SystemInv(s) && !a.SendCommand? && Next(s, a).Some?
    ensures Leads(s, [a], Next(s, a).value) && SystemInv(Next(s, a).value)
  {
    NextKeeps(s, a);
  }

  function Moves(steps: seq<Step>): seq<Action> {
    if steps == [] then [] else [RingMoves(steps[0])] + Moves(steps[1..])
  }

  lemma {:induction false} RunMoves(s: System, steps: seq<Step>)
    requires SystemInv(s) && Run(s.ring, steps).Some?
    requires forall step :: step in steps ==> IsInnerStep(step)
    ensures var t := s.(ring := Run(s.ring, steps).value); Leads(s, Moves(steps), t) && SystemInv(t)
    decreases |steps|
  {
    if steps != [] {
      One(s, RingMoves(steps[0]));
      RunMoves(Next(s, RingMoves(steps[0])).value, steps[1..]);
    }
  }

  /** Only the firmware has done something. */
  ghost predicate FirmwareOnly(s: System, t: System) {
    && t.host == s.host && t.ring.producer == s.ring.producer && t.ring.produced == s.ring.produced
    && t.ring.size == s.ring.size && |s.ring.consumed| <= |t.ring.consumed|
  }

  /** Only the host has done something. */
  ghost predicate HostOnly(s: System, t: System) {
    && t.m3 == s.m3 && t.ring.consumer == s.ring.consumer && t.ring.consumed == s.ring.consumed
    && t.ring.size == s.ring.size && t.host.sent == s.host.sent
  }

  predicate IsGetting(m: Firmware) {
    m.point.GettingLength? || m.point.GettingByte?
  }

  /** One action of the firmware, which is possible. */
  lemma FirmwareMoves(s: System, a: Action) returns (t: System)
    requires SystemInv(s) && FirmwareStep(s, a).Some?
    requires !a.RingMoves? && !a.SendCommand? && !a.EnterWrite? && !a.NextChunk? && !a.LeaveWrite? && !a.ChunkDone?
    ensures Leads(s, [a], t) && SystemInv(t) && FirmwareOnly(s, t) && t == FirmwareStep(s, a).value
    ensures t.ring.consumed == s.ring.consumed
  {
    OuterStepTakesNothing(s, a);
    NextIsFirmwareStep(s, a);
    hide FirmwareStep, Next, SystemInv;
    One(s, a);
    t := Next(s, a).value;
  }

  lemma NextIsFirmwareStep(s: System, a: Action)
    requires s.ring.WellFormed()
    requires !a.RingMoves? && !a.SendCommand? && !a.EnterWrite? && !a.NextChunk? && !a.LeaveWrite? && !a.ChunkDone?
    ensures Next(s, a) == FirmwareStep(s, a)
  {
  }

  lemma OuterStepTakesNothing(s: System, a: Action)
    requires s.ring.WellFormed() && FirmwareStep(s, a).Some?
    ensures FirmwareStep(s, a).value.ring.consumed == s.ring.consumed
  {
  }

  /** The ring call of a `ringbuf_getc` finishes. */
  lemma ReturnFromGet(s: System) returns (actions: seq<Action>, t: System)
    requires SystemInv(s) && IsGetting(s.m3)
    ensures Leads(s, actions, t) && SystemInv(t) && FirmwareOnly(s, t) && t.m3 == s.m3
    ensures t.ring.consumer.RReturned?
    ensures |t.ring.consumed| == |s.ring.consumed| + (if s.ring.consumer.RReturned? then 0 else 1)
  {
    actions, t := [], s;
    if !s.ring.consumer.RReturned? {
      assert Reading(s.ring.consumer, 1);
      var steps := FinishRead(s.ring, 1);
      RunMoves(s, steps);
      actions, t := Moves(steps), s.(ring := Run(s.ring, steps).value);
      assert t.ring.consumer.n == 1;
    }
  }

  lemma KnownIsPossible(s: System)
    requires SystemInv(s) && IsGetting(s.m3) && s.ring.consumer.RReturned?
    ensures var last := if s.m3.point.GettingByte? then ByteKnown else LengthKnown;
      FirmwareStep(s, last).Some? &&
      FirmwareStep(s, last).value.m3.point ==
        if s.m3.point.GettingByte? then AtByte(s.m3.point.avail, s.m3.point.i + 1) else AtByte(s.m3.point.avail - 1, 0)
  {
  }

  /** A `ringbuf_getc` of the tick finishes. */
  lemma FinishGet(s: System) returns (actions: seq<Action>, t: System)
    requires SystemInv(s) && IsGetting(s.m3)
    ensures Leads(s, actions, t) && SystemInv(t) && FirmwareOnly(s, t) && t.m3.point.AtByte?
    ensures |t.ring.consumed| == |s.ring.consumed| + (if s.ring.consumer.RReturned? then 0 else 1)
    ensures s.m3.point.GettingByte? ==> t.m3.point == AtByte(s.m3.point.avail, s.m3.point.i + 1)
    ensures s.m3.point.GettingLength? ==> t.m3.point == AtByte(s.m3.point.avail - 1, 0)
  {
    hide Leads, SystemInv, FirmwareStep;
    var a, u := ReturnFromGet(s);
    KnownIsPossible(u);
    var last := if u.m3.point.GettingByte? then ByteKnown else LengthKnown;
    t := FirmwareMoves(u, last);
    InvIsWellFormed(u);
    InvIsWellFormed(s);
    Joins(s, a, u, [last], t);
    actions := a + [last];
  }

  lemma InvIsWellFormed(s: System)
    requires SystemInv(s)
    ensures s.ring.WellFormed()
  {
  }

  predicate WantsByte(m: Firmware) {
    m.point.NeedsLength? || (m.point.AtByte? && m.point.i < m.point.avail && m.point.i < m.bufLeft)
  }

  lemma AskIsPossible(s: System)
    requires SystemInv(s) && WantsByte(s.m3)
    ensures var ask := if s.m3.point.NeedsLength? then AskLength(0) else AskByte(0);
      FirmwareStep(s, ask).Some? &&
      var m := FirmwareStep(s, ask).value.m3;
      && !FirmwareStep(s, ask).value.ring.consumer.RReturned?
      && m.point ==
        if s.m3.point.NeedsLength? then GettingLength(s.m3.point.avail) else GettingByte(s.m3.point.avail, s.m3.point.i)
  {
  }

  /** The tick fetches one byte. */
  lemma GetOne(s: System) returns (actions: seq<Action>, t: System)
    requires SystemInv(s) && WantsByte(s.m3)
    ensures Leads(s, actions, t) && SystemInv(t) && FirmwareOnly(s, t) && t.m3.point.AtByte?
    ensures |t.ring.consumed| == |s.ring.consumed| + 1
    ensures s.m3.point.AtByte? ==> t.m3.point == AtByte(s.m3.point.avail, s.m3.point.i + 1)
  {
    hide Leads, SystemInv, FirmwareStep;
    AskIsPossible(s);
    var ask := if s.m3.point.NeedsLength? then AskLength(0) else AskByte(0);
    var asked := FirmwareMoves(s, ask);
    InvIsWellFormed(s);
    InvIsWellFormed(asked);
    actions, t := FinishGet(asked);
    Joins(s, [ask], asked, actions, t);
    actions := [ask] + actions;
  }

  /** Every command sent has a place in the command table. */
  predicate CommandsInRange(s: System) {
    forall f :: f in s.host.sent ==> f.cmd < 128
  }

  /** A frame that has been assembled is one that was sent. */
  lemma AssembledWasSent(s: System, f: Frame)
    requires SystemInv(s) && s.ring.consumed == EncodeAll(s.m3.dispatched) + Encode(f)
    ensures f in s.host.sent
  {
    var got := s.m3.dispatched + [f];
    EncodeAllSnoc(s.m3.dispatched, f);
    assert EncodeAll(got) + [] == s.ring.consumed;
    assert IsPrefix(s.ring.consumed, s.ring.produced);
    assert IsPrefix(s.ring.produced, EncodeAll(s.host.sent));
    PrefixTransitive(s.ring.consumed, s.ring.produced, EncodeAll(s.host.sent));
    DecodedPrefix(got, [], s.host.sent);
    assert got[|got| - 1] == f && s.host.sent[|got| - 1] == f;
  }

  /** A whole frame in the assembly buffer, as the invariant has it. */
  lemma AssembledFrame(s: System)
    requires SystemInv(s) && s.ring.consumer == RIdle && s.m3.bufI == s.m3.bufLen + 1
    ensures var f := Frame(s.m3.buf[0], s.m3.buf[1..1 + s.m3.bufLen as int]);
      s.ring.consumed == EncodeAll(s.m3.dispatched) + Encode(f)
  {
    var f := Frame(s.m3.buf[0], s.m3.buf[1..1 + s.m3.bufLen as int]);
    assert Partial(s.m3) == Encode(f);
    assert EncodeAll(s.m3.dispatched) + Partial(s.m3) + [] == EncodeAll(s.m3.dispatched) + Partial(s.m3);
  }

  /** With commands in range the assertion of the tick never fails. */
  lemma NeverHalts(s: System)
    requires SystemInv(s) && CommandsInRange(s)
    ensures s.m3.point != Halted
  {
    if s.m3.point == Halted {
      AssembledFrame(s);
      AssembledWasSent(s, Frame(s.m3.buf[0], s.m3.buf[1..1 + s.m3.bufLen as int]));
    }
  }

  /** The `for` loop of a tick, and its end. */
  lemma {:induction false} FinishLoop(s: System) returns (actions: seq<Action>, t: System)
    requires SystemInv(s) && s.m3.point.AtByte? && CommandsInRange(s)
    ensures Leads(s, actions, t) && SystemInv(t) && FirmwareOnly(s, t) && t.m3.point == Waiting
    decreases s.m3.point.avail - s.m3.point.i
  {
    if WantsByte(s.m3) {
      var a, u := GetOne(s);
      var b, v := FinishLoop(u);
      Joins(s, a, u, b, v);
      actions, t := a + b, v;
    } else {
      actions, t := EndLoop(s);
    }
  }

  lemma EndLoop(s: System) returns (actions: seq<Action>, t: System)
    requires SystemInv(s) && s.m3.point.AtByte? && !WantsByte(s.m3) && CommandsInRange(s)
    ensures Leads(s, actions, t) && SystemInv(t) && FirmwareOnly(s, t) && t.m3.point == Waiting
  {
    assert Next(s, EndTick).Some?;
    One(s, EndTick);
    actions, t := [EndTick], Next(s, EndTick).value;
    NeverHalts(t);
  }

  lemma SnapshotReturns(s: System) returns (actions: seq<Action>, t: System)
    requires SystemInv(s) && s.m3.point == Asking
    ensures Leads(s, actions, t) && SystemInv(t) && FirmwareOnly(s, t) && t.m3 == s.m3
    ensures t.ring.consumer.AReturned?
    ensures s.ring.consumer.ALoaded? && s.ring.consumer.fill0 > 0 ==> t.ring.consumer.avail > 0
  {
    actions, t := [], s;
    if s.ring.consumer.ALoaded? {
      One(s, RingMoves(AvailableClips));
      actions, t := [RingMoves(AvailableClips)], Next(s, RingMoves(AvailableClips)).value;
    }
  }

  lemma AvailIsPossible(s: System)
    requires SystemInv(s) && s.m3.point == Asking && s.ring.consumer.AReturned?
    ensures FirmwareStep(s, AvailKnown).Some?
    ensures var m := FirmwareStep(s, AvailKnown).value.m3;
      if s.ring.consumer.avail == 0 then m.point == Waiting else WantsByte(m)
  {
  }

  /** The snapshot of the fill at the start of a tick; whatever was waiting when it was taken is seen. */
  lemma FinishAsking(s: System) returns (actions: seq<Action>, t: System)
    requires SystemInv(s) && s.m3.point == Asking
    ensures Leads(s, actions, t) && SystemInv(t) && FirmwareOnly(s, t)
    ensures t.m3.point == Waiting || WantsByte(t.m3)
    ensures s.ring.consumer.ALoaded? && s.ring.consumer.fill0 > 0 ==> WantsByte(t.m3)
  {
    hide Leads, SystemInv, FirmwareStep;
    var a, u := SnapshotReturns(s);
    AvailIsPossible(u);
    t := FirmwareMoves(u, AvailKnown);
    InvIsWellFormed(s);
    InvIsWellFormed(u);
    Joins(s, a, u, [AvailKnown], t);
    actions := a + [AvailKnown];
  }

  lemma FinishFromWanting(s: System) returns (actions: seq<Action>, t: System)
    requires SystemInv(s) && WantsByte(s.m3) && CommandsInRange(s)
    ensures Leads(s, actions, t) && SystemInv(t) && FirmwareOnly(s, t) && t.m3.point == Waiting
    ensures |t.ring.consumed| > |s.ring.consumed|
  {
    var a, u := GetOne(s);
    var b, v := FinishLoop(u);
    Joins(s, a, u, b, v);
    actions, t := a + b, v;
  }

  /** A tick in progress finishes. */
  lemma FinishTick(s: System) returns (actions: seq<Action>, t: System)
    requires SystemInv(s) && CommandsInRange(s)
    ensures Leads(s, actions, t) && SystemInv(t) && FirmwareOnly(s, t) && t.m3.point == Waiting
  {
    NeverHalts(s);
    if s.m3.point == Waiting {
      actions, t := [], s;
    } else if s.m3.point == Asking {
      var a, u := FinishAsking(s);
      if u.m3.point == Waiting {
        actions, t := a, u;
      } else {
        var b, v := FinishFromWanting(u);
        Joins(s, a, u, b, v);
        actions, t := a + b, v;
      }
    } else if IsGetting(s.m3) {
      var a, u := FinishGet(s);
      var b, v := FinishLoop(u);
      Joins(s, a, u, b, v);
      actions, t := a + b, v;
    } else if s.m3.point.NeedsLength? {
      actions, t := FinishFromWanting(s);
    } else {
      actions, t := FinishLoop(s);
    }
  }

  lemma TickIsPossible(s: System)
    requires SystemInv(s) && s.m3.point == Waiting
    ensures FirmwareStep(s, Tick).Some?
    ensures var t := FirmwareStep(s, Tick).value;
      t.m3.point == Asking && t.ring.consumer.ALoaded? && t.ring.consumer.fill0 == |s.ring.Queue()|
  {
  }

  /** A whole tick on a ring that holds something takes at least one byte. */
  lemma WholeTick(s: System) returns (actions: seq<Action>, t: System)
    requires SystemInv(s) && CommandsInRange(s) && s.m3.point == Waiting && s.ring.Queue() != []
    ensures Leads(s, actions, t) && SystemInv(t) && FirmwareOnly(s, t) && t.m3.point == Waiting
    ensures |t.ring.consumed| > |s.ring.consumed|
  {
    TickIsPossible(s);
    hide Leads, SystemInv, FirmwareStep, Unread;
    var asking := FirmwareMoves(s, Tick);
    InvIsWellFormed(s);
    InvIsWellFormed(asking);
    var a, u := FinishAsking(asking);
    var b, v := FinishFromWanting(u);
    InvIsWellFormed(u);
    Joins(asking, a, u, b, v);
    Joins(s, [Tick], asking, a + b, v);
    actions, t := [Tick] + (a + b), v;
  }

  /** A tick that began on a ring that held something, with `c0` bytes consumed, has taken a byte since or is going to. */
  ghost predicate WillTake(s: System, c0: nat) {
    && c0 <= |s.ring.consumed|
    && match s.m3.point
       case Asking =>
         (s.ring.consumer.ALoaded? ==> s.ring.consumer.fill0 > 0)
         && (s.ring.consumer.AReturned? ==> s.ring.consumer.avail > 0)
       case NeedsLength(_) => true
       case GettingLength(_) => s.ring.consumer.RReturned? ==> c0 < |s.ring.consumed|
       case GettingByte(_, _) => s.ring.consumer.RReturned? ==> c0 < |s.ring.consumed|
       case AtByte(_, _) => c0 < |s.ring.consumed| || WantsByte(s.m3)
       case _ => c0 < |s.ring.consumed|
  }

  lemma RingKeepsWillTake(s: System, step: Step, c0: nat)
    requires SystemInv(s) && WillTake(s, c0) && IsInnerStep(step) && Apply(s.ring, step).Some?
    ensures WillTake(s.(ring := Apply(s.ring, step).value), c0)
  {
    if !IsProducerStep(step) {
      ConsumerKeepsInv(s.ring, step);
    }
    hide Unread;
  }

  lemma FirmwareKeepsWillTake(s: System, a: Action, c0: nat)
    requires SystemInv(s) && WillTake(s, c0) && FirmwareStep(s, a).Some? && a != Tick
    ensures WillTake(FirmwareStep(s, a).value, c0)
  {
    OuterStepTakesNothing(s, a);
    hide Unread;
  }

  lemma HostKeepsWillTake(s: System, a: Action, c0: nat)
    requires SystemInv(s) && WillTake(s, c0) && HostStep(s, a).Some?
    ensures WillTake(HostStep(s, a).value, c0)
  {
    HostTakesNothing(s, a);
    hide HostStep;
  }

  lemma HostTakesNothing(s: System, a: Action)
    requires s.ring.WellFormed() && HostStep(s, a).Some?
    ensures var t := HostStep(s, a).value;
      t.ring.consumer == s.ring.consumer && t.ring.consumed == s.ring.consumed && t.m3 == s.m3
  {
    hide Unread;
  }

  lemma {:induction false} RunKeepsWillTake(s: System, actions: seq<Action>, c0: nat)
    requires SystemInv(s) && WillTake(s, c0) && Tick !in actions && RunSystem(s, actions).Some?
    ensures WillTake(RunSystem(s, actions).value, c0)
    decreases |actions|
  {
    if actions != [] {
      var a := actions[0];
      NextKeeps(s, a);
      match a {
        case RingMoves(step) => RingKeepsWillTake(s, step, c0);
        case SendCommand(_) => HostKeepsWillTake(s, a, c0);
        case EnterWrite => HostKeepsWillTake(s, a, c0);
        case NextChunk => HostKeepsWillTake(s, a, c0);
        case LeaveWrite => HostKeepsWillTake(s, a, c0);
        case ChunkDone => HostKeepsWillTake(s, a, c0);
        case _ => FirmwareKeepsWillTake(s, a, c0);
      }
      hide HostStep, FirmwareStep, WillTake, SystemInv;
      RunKeepsWillTake(Next(s, a).value, actions[1..], c0);
    }
  }

  /** Every tick that begins on a ring that is not empty has taken at least one byte when it ends, whatever the host does
      meanwhile. */
  lemma EveryTickTakes(s: System, actions: seq<Action>)
    requires SystemInv(s) && s.m3.point == Waiting && s.ring.Queue() != []
    requires Tick !in actions && RunSystem(s, [Tick] + actions).Some?
    ensures var t := RunSystem(s, [Tick] + actions).value;
      t.m3.point == Waiting || t.m3.point == Halted ==> |t.ring.consumed| > |s.ring.consumed|
  {
    TickIsPossible(s);
    One(s, Tick);
    OuterStepTakesNothing(s, Tick);
    NextIsFirmwareStep(s, Tick);
    var asking := Next(s, Tick).value;
    assert ([Tick] + actions)[1..] == actions;
    hide FirmwareStep, Unread;
    RunKeepsWillTake(asking, actions, |s.ring.consumed|);
  }

  /** The ring call of a chunk finishes. */
  lemma FinishChunk(s: System) returns (actions: seq<Action>, t: System)
    requires SystemInv(s) && s.host.call.InRing?
    ensures Leads(s, actions, t) && SystemInv(t) && HostOnly(s, t)
    ensures t.host == s.host && t.ring.producer.WReturned?
  {
    actions, t := [], s;
    if !s.ring.producer.WReturned? {
      var steps := FinishWrite(s.ring, s.host.call.chunk);
      RunMoves(s, steps);
      actions, t := Moves(steps), s.(ring := Run(s.ring, steps).value);
    }
  }

  function CallStage(call: WriteCall): nat {
    if call.AtLoop? then 1 else 0
  }

  /** The host's next step inside a call whose ring write, if any, has returned. */
  lemma HostMoves(s: System) returns (a: Action)
    requires SystemInv(s) && s.host.call != Outside && (s.host.call.InRing? ==> s.ring.producer.WReturned?)
    ensures HostStep(s, a).Some? && (a == LeaveWrite || a == NextChunk || a == ChunkDone)
    ensures a == ChunkDone <==> s.host.call.InRing?
  {
    a := if s.host.call.InRing? then ChunkDone
         else if s.host.call.written == |s.host.pending| then LeaveWrite else NextChunk;
  }

  /** A `quadcopter_write` in progress returns, having accepted at least what was free when it was called. */
  lemma {:induction false} FinishCall(s: System) returns (actions: seq<Action>, t: System)
    requires SystemInv(s) && s.host.call != Outside
    ensures Leads(s, actions, t) && SystemInv(t) && HostOnly(s, t) && t.host.call == Outside
    ensures |t.host.pending| <= |s.host.pending| - Min(|s.host.pending|, s.host.call.free0)
    decreases |s.host.pending| - s.host.call.written, CallStage(s.host.call)
  {
    WrittenIsBounded(s);
    hide Leads, SystemInv, HostStep;
    actions, t := TurnLoop(s);
    if t.host.call != Outside {
      WrittenIsBounded(t);
      var b, w := FinishCall(t);
      InvIsWellFormed(s);
      InvIsWellFormed(t);
      InvIsWellFormed(w);
      Joins(s, actions, t, b, w);
      actions, t := actions + b, w;
    }
  }

  /** The ring write in progress, if any, and one step of the host's loop. */
  lemma TurnLoop(s: System) returns (actions: seq<Action>, t: System)
    requires SystemInv(s) && s.host.call != Outside
    ensures Leads(s, actions, t) && SystemInv(t) && HostOnly(s, t)
    ensures t.host.call != Outside ==>
      && t.host.pending == s.host.pending && t.host.call.free0 == s.host.call.free0
      && (t.host.call.written > s.host.call.written
          || (t.host.call.written == s.host.call.written && CallStage(t.host.call) < CallStage(s.host.call)))
    ensures t.host.call == Outside ==>
      |t.host.pending| <= |s.host.pending| - Min(|s.host.pending|, s.host.call.free0)
  {
    hide Leads, SystemInv, HostStep;
    InvIsWellFormed(s);
    if s.host.call.InRing? {
      var c, u := FinishChunk(s);
      InvIsWellFormed(u);
      var a := HostMoves(u);
      var d, v := StepOrFinish(u, a);
      InvIsWellFormed(v);
      Joins(s, c, u, d, v);
      actions, t := c + d, v;
    } else {
      var a := HostMoves(s);
      actions, t := StepOrFinish(s, a);
    }
  }

  lemma WrittenIsBounded(s: System)
    requires SystemInv(s) && s.host.call != Outside
    ensures s.host.call.written <= |s.host.pending|
  {
  }

  /** One step of the host's loop: the call goes on with the same data, or returns. */
  lemma StepOrFinish(s: System, a: Action) returns (actions: seq<Action>, t: System)
    requires SystemInv(s) && s.host.call != Outside && HostStep(s, a).Some?
    requires a == LeaveWrite || a == NextChunk || a == ChunkDone
    ensures actions == [a] && Leads(s, actions, t) && SystemInv(t) && HostOnly(s, t) && t == HostStep(s, a).value
    ensures t.host.call != Outside ==>
      && t.host.pending == s.host.pending && t.host.call.free0 == s.host.call.free0
      && (a == NextChunk ==> t.host.call.InRing? && t.host.call.written == s.host.call.written)
      && (a == ChunkDone ==> t.host.call.AtLoop? && t.host.call.written > s.host.call.written)
    ensures a == LeaveWrite ==> t.host.call == Outside
    ensures t.host.call == Outside ==>
      |t.host.pending| <= |s.host.pending| - Min(|s.host.pending|, s.host.call.free0)
  {
    One(s, a);
    actions, t := [a], HostStep(s, a).value;
    if t.host.call == Outside {
      ReturnMatchesPublished(s, a);
    }
  }

  /** A whole `quadcopter_write` on a ring that is not full accepts something. */
  lemma WholeCall(s: System) returns (actions: seq<Action>, t: System)
    requires SystemInv(s) && s.host.call == Outside && s.host.pending != [] && s.ring.Free() > 0
    ensures Leads(s, actions, t) && SystemInv(t) && HostOnly(s, t) && t.host.call == Outside
    ensures |t.host.pending| < |s.host.pending|
  {
    One(s, EnterWrite);
    var entered := Next(s, EnterWrite).value;
    actions, t := FinishCall(entered);
    Joins(s, [EnterWrite], entered, actions, t);
    actions := [EnterWrite] + actions;
  }

  lemma ConsumedIsBounded(s: System)
    requires SystemInv(s)
    ensures |s.ring.consumed| <= |EncodeAll(s.host.sent)|
    ensures s.ring.Queue() == [] ==> s.ring.Free() == s.ring.size - 1
  {
    FillPlusRoom(s.ring.size, s.ring.writePos, s.ring.readPos);
  }

  /** With both sides between two calls: take turns until nothing is left. */
  lemma {:induction false} DrainFromRest(s: System) returns (actions: seq<Action>, t: System)
    requires SystemInv(s) && CommandsInRange(s) && s.ring.size >= 2
    requires s.m3.point == Waiting && s.host.call == Outside
    ensures Leads(s, actions, t) && SystemInv(t) && Drained(t) && t.host.sent == s.host.sent
    decreases |EncodeAll(s.host.sent)| - |s.ring.consumed|, |s.host.pending|
  {
    ConsumedIsBounded(s);
    if s.ring.Queue() != [] || s.host.pending != [] {
      var a, u;
      if s.ring.Queue() != [] {
        a, u := WholeTick(s);
      } else {
        a, u := WholeCall(s);
      }
      ConsumedIsBounded(u);
      var b, v := DrainFromRest(u);
      Joins(s, a, u, b, v);
      actions, t := a + b, v;
    } else {
      actions, t := [], s;
    }
  }

  /** From every reachable state, in the middle of whatever calls, the channel can be run until it is drained, and then
      exactly the frames sent have been dispatched. Commands must be in range, or the firmware stops at its assertion. */
  lemma EverythingCanBeDelivered(start: System, before: seq<Action>) returns (after: seq<Action>)
    requires Start(start) && start.ring.size >= 2 && RunSystem(start, before).Some?
    requires CommandsInRange(RunSystem(start, before).value)
    ensures var s := RunSystem(start, before).value;
      && NothingNew(after) && RunSystem(s, after).Some?
      && Drained(RunSystem(s, after).value)
      && RunSystem(s, after).value.m3.dispatched == s.host.sent
  {
    var s := RunSystem(start, before).value;
    StartIsInvariant(start);
    RunKeepsSystemInv(start, before);
    SizeStays(start, before);
    var a, u := FinishTick(s);
    var b, v := [], u;
    if u.host.call != Outside {
      b, v := FinishCall(u);
    }
    Joins(s, a, u, b, v);
    var c, w := DrainFromRest(v);
    Joins(s, a + b, v, c, w);
    DrainedMeansDelivered(w);
    after := a + b + c;
  }

  lemma {:induction false} SizeStays(s: System, actions: seq<Action>)
    requires s.ring.WellFormed() && RunSystem(s, actions).Some?
    ensures RunSystem(s, actions).value.ring.size == s.ring.size
    decreases |actions|
  {
    if actions != [] {
      SizeStays(Next(s, actions[0]).value, actions[1..]);
    }
  }

  lemma {:induction false} RunConcat(s: System, a: seq<Action>, b: seq<Action>)
    requires s.ring.WellFormed() && RunSystem(s, a).Some?
    ensures RunSystem(s, a + b) == RunSystem(RunSystem(s, a).value, b)
    decreases |a|
  {
    if a == [] {
      assert a + b == b;
    } else {
      assert (a + b)[1..] == a[1..] + b;
      RunConcat(Next(s, a[0]).value, a[1..], b);
    }
  }

  /** Any commands below 128 whatever can be sent one after the other, and get through: some run from the start sends
      exactly them and dispatches exactly them. */
  lemma {:induction false} AnyCommandsGetThrough(start: System, fs: seq<Frame>) returns (actions: seq<Action>)
    requires Start(start) && start.ring.size >= 2
    requires forall f :: f in fs ==> f.cmd < 128
    ensures RunSystem(start, actions).Some?
    ensures var s := RunSystem(start, actions).value; Drained(s) && s.host.sent == fs && s.m3.dispatched == fs
  {
    hide HostStep, FirmwareStep;
    if fs == [] {
      actions := [];
    } else {
      var last := fs[|fs| - 1];
      assert fs[..|fs| - 1] + [last] == fs;
      var before := AnyCommandsGetThrough(start, fs[..|fs| - 1]);
      var s := RunSystem(start, before).value;
      var t := Sends(s, last);
      RunConcat(start, before, [SendCommand(last)]);
      var after := EverythingCanBeDelivered(start, before + [SendCommand(last)]);
      RunConcat(start, before + [SendCommand(last)], after);
      actions := before + [SendCommand(last)] + after;
      StartIsInvariant(start);
      RunKeepsSystemInv(start, actions);
      DrainedMeansDelivered(RunSystem(start, actions).value);
    }
  }

  lemma Sends(s: System, f: Frame) returns (t: System)
    requires s.ring.WellFormed() && Drained(s)
    ensures RunSystem(s, [SendCommand(f)]) == Some(t) && t.host.sent == s.host.sent + [f]
  {
    t := HostStep(s, SendCommand(f)).value;
    assert [SendCommand(f)][1..] == [];
  }

  /** The firmware stops at its assertion on commands from 128 on only, and dispatches only commands below. */
  lemma {:induction false} DispatchedInRange(s: System, actions: seq<Action>)
    requires s.ring.WellFormed() && RunSystem(s, actions).Some?
    requires forall f :: f in s.m3.dispatched ==> f.cmd < 128
    ensures forall f :: f in RunSystem(s, actions).value.m3.dispatched ==> f.cmd < 128
    decreases |actions|
  {
    if actions != [] {
      DispatchedInRange(Next(s, actions[0]).value, actions[1..]);
    }
  }
}
