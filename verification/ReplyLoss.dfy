/** Exactly when `command_send` is sure to send a whole frame, and what else it can send. */
module ReplyLoss {
  import opened Basics
  import opened Ring
  import opened SharedRing
  import opened SharedRingSafety
  import opened RingSolo
  import opened Frames
  import opened ReplyChannel

  lemma {:induction false} RunSendsConcat(s: System, a: seq<Action>, b: seq<Action>)
    requires s.ring.WellFormed() && RunSends(s, a).Some?
    ensures RunSends(s, a + b) == RunSends(RunSends(s, a).value, b)
    decreases |a|
  {
    if a == [] {
      assert a + b == b;
    } else {
      assert (a + b)[1..] == a[1..] + b;
      RunSendsConcat(Next(s, a[0]).value, a[1..], b);
    }
  }

  function Moves(steps: seq<Step>): seq<Action> {
    if steps == [] then [] else [RingMoves(steps[0])] + Moves(steps[1..])
  }

  /** No other `command_send` begins. */
  ghost predicate SameCall(actions: seq<Action>) {
    forall a :: a in actions ==> !a.EnterSend?
  }

  /** The host does nothing. */
  ghost predicate SenderAlone(actions: seq<Action>) {
    forall a :: a in actions && a.RingMoves? ==> IsInnerStep(a.step)
  }

  lemma {:induction false} MovesOfSteps(steps: seq<Step>)
    requires IsSolo(steps, true)
    ensures SenderAlone(Moves(steps))
  {
    if steps != [] {
      MovesOfSteps(steps[1..]);
    }
  }

  /** What the ring can do by itself, the system can do. */
  lemma {:induction false} RunMoves(s: System, steps: seq<Step>)
    requires s.ring.WellFormed() && Run(s.ring, steps).Some?
    requires forall step :: step in steps ==> IsFree(step)
    ensures RunSends(s, Moves(steps)) == Some(System(Run(s.ring, steps).value, s.call))
    ensures SameCall(Moves(steps))
    decreases |steps|
  {
    if steps != [] {
      var t := System(Apply(s.ring, steps[0]).value, s.call);
      assert Next(s, RingMoves(steps[0])) == Some(t);
      RunMoves(t, steps[1..]);
    }
  }

  lemma {:induction false} CallStaysTheSame(s: System, actions: seq<Action>)
    requires s.ring.WellFormed() && !s.call.Quiet? && SameCall(actions) && RunSends(s, actions).Some?
    ensures var t := RunSends(s, actions).value;
      && !t.call.Quiet? && t.call.frame == s.call.frame && t.call.from == s.call.from && t.call.free0 == s.call.free0
    decreases |actions|
  {
    if actions != [] {
      CallStaysTheSame(Next(s, actions[0]).value, actions[1..]);
    }
  }

  /** What the call has appended to the ring so far. */
  ghost function Appended(s: System): seq<byte>
    requires !s.call.Quiet? && s.call.from <= |s.ring.produced|
  {
    s.ring.produced[s.call.from..]
  }

  lemma FreeIsRest(ring: State)
    requires Inv(ring)
    ensures ring.Free() == ring.size - 1 - (|ring.produced| - |ring.consumed|)
  {
    FillPlusRoom(ring.size, ring.writePos, ring.readPos);
  }

  lemma BeginPart(s: System)
    requires SystemInv(s) && s.call.Between? && s.call.part < 3
    ensures Next(s, NextPart).Some?
    ensures var t, part := Next(s, NextPart).value, Part(s.call.frame, s.call.part);
      && SystemInv(t) && Writing(t.ring.producer, part) && t.ring.producer.free0 == s.ring.Free()
      && t.call == InRing(s.call.frame, s.call.part, s.call.from, s.call.free0)
      && t.ring.consumer == s.ring.consumer && t.ring.consumed == s.ring.consumed
      && t.ring.produced == s.ring.produced && t.ring.size == s.ring.size
  {
    NextKeepsInv(s, NextPart);
  }

  lemma EndPart(s: System)
    requires SystemInv(s) && s.call.InRing? && s.ring.producer.WReturned?
    ensures Next(s, PartDone).Some?
    ensures var t := Next(s, PartDone).value;
      && SystemInv(t) && t.call == Between(s.call.frame, s.call.part + 1, s.call.from, s.call.free0)
      && t.ring.consumer == s.ring.consumer && t.ring.consumed == s.ring.consumed
      && t.ring.produced == s.ring.produced && t.ring.size == s.ring.size
  {
    NextKeepsInv(s, PartDone);
  }

  /** One of the three ring writes while the host does nothing appends what fits of it. */
  lemma SendPart(s: System) returns (actions: seq<Action>)
    requires SystemInv(s) && s.call.Between? && s.call.part < 3
    ensures SameCall(actions) && SenderAlone(actions) && RunSends(s, actions).Some?
    ensures var t, part := RunSends(s, actions).value, Part(s.call.frame, s.call.part);
      && SystemInv(t) && t.call == Between(s.call.frame, s.call.part + 1, s.call.from, s.call.free0)
      && t.ring.consumer == s.ring.consumer && t.ring.consumed == s.ring.consumed && t.ring.size == s.ring.size
      && t.ring.produced == s.ring.produced + part[..Min(|part|, s.ring.Free())]
  {
    var part := Part(s.call.frame, s.call.part);
    BeginPart(s);
    var begun := Next(s, NextPart).value;
    var steps := FinishWrite(begun.ring, part);
    RunMoves(begun, steps);
    SendsKeepInv(begun, Moves(steps));
    var written := RunSends(begun, Moves(steps)).value;
    FreeIsRest(s.ring);
    FreeIsRest(written.ring);
    assert written.ring.producer.n == Min(|part|, s.ring.Free());
    hide Next, SystemInv;
    EndPart(written);
    actions := [NextPart] + Moves(steps) + [PartDone];
    MovesOfSteps(steps);
    RunSendsConcat(s, [NextPart], Moves(steps));
    RunSendsConcat(s, [NextPart] + Moves(steps), [PartDone]);
  }

  lemma Then(s: System, a: seq<Action>, b: seq<Action>)
    requires s.ring.WellFormed() && RunSends(s, a).Some? && SameCall(a) && SameCall(b)
    ensures RunSends(s, a + b) == RunSends(RunSends(s, a).value, b) && SameCall(a + b)
  {
    RunSendsConcat(s, a, b);
  }

  /** The remaining ring writes while the host does nothing. */
  lemma {:induction false} FinishSend(s: System) returns (actions: seq<Action>)
    requires SystemInv(s) && s.call.Between? && s.call.part <= 3
    ensures SameCall(actions) && RunSends(s, actions).Some?
    ensures var t := RunSends(s, actions).value;
      && SystemInv(t) && Sent(t) && t.ring.consumed == s.ring.consumed && t.ring.size == s.ring.size
    decreases 3 - s.call.part
  {
    actions := [];
    if s.call.part < 3 {
      var a := SendPart(s);
      var t := RunSends(s, a).value;
      var b := FinishSend(t);
      Then(s, a, b);
      actions := a + b;
    }
  }

  /** Every run that completes the call appends the whole frame. */
  ghost predicate AlwaysWhole(s: System, f: Frame)
    requires s.ring.WellFormed()
  {
    forall actions :: SameCall(actions) && Completes(s, f, actions) ==> SendsWhole(s, f, actions)
  }

  ghost predicate Completes(s: System, f: Frame, actions: seq<Action>)
    requires s.ring.WellFormed()
  {
    RunSends(Entered(s, f), actions).Some? && Sent(RunSends(Entered(s, f), actions).value)
  }

  ghost predicate SendsWhole(s: System, f: Frame, actions: seq<Action>)
    requires s.ring.WellFormed() && Completes(s, f, actions)
  {
    var t := RunSends(Entered(s, f), actions).value;
    t.call.from <= |t.ring.produced| && Appended(t) == Encode(f)
  }

  /** `command_send` is sure to append its whole frame, whatever the host does meanwhile, if and only if the ring has room
      for all of it on entry. */
  lemma AlwaysWholeIff(s: System, f: Frame)
    requires SystemInv(s) && (s.call.Quiet? || Sent(s))
    ensures AlwaysWhole(s, f) <==> s.ring.Free() >= |f.payload| + 2
  {
    var begun := Entered(s, f);
    NextKeepsInv(s, EnterSend(f));
    if s.ring.Free() >= |f.payload| + 2 {
      forall actions | SameCall(actions) && Completes(s, f, actions)
        ensures SendsWhole(s, f, actions)
      {
        SendsKeepInv(begun, actions);
        CallStaysTheSame(begun, actions);
      }
    } else {
      var actions := FinishSend(begun);
      var t := RunSends(begun, actions).value;
      CallStaysTheSame(begun, actions);
      FreeIsRest(s.ring);
      FreeIsRest(t.ring);
      assert Completes(s, f, actions) && !SendsWhole(s, f, actions);
    }
  }

  /** What the remaining ring writes have to append. */
  function Remaining(f: Frame, part: nat): seq<byte> {
    if part == 0 then Encode(f) else if part == 1 then [f.cmd] + f.payload else if part == 2 then f.payload else []
  }

  lemma RemainingInParts(f: Frame, part: nat)
    requires part < 3
    ensures Remaining(f, part) == Part(f, part) + Remaining(f, part + 1)
  {
  }

  /** With room for all that remains, all of it is appended. */
  lemma {:induction false} FinishWhole(s: System) returns (actions: seq<Action>)
    requires SystemInv(s) && s.call.Between? && s.call.part <= 3
    requires s.ring.Free() >= |Remaining(s.call.frame, s.call.part)|
    ensures SameCall(actions) && SenderAlone(actions) && RunSends(s, actions).Some?
    ensures var t := RunSends(s, actions).value;
      && SystemInv(t) && Sent(t) && t.call.from == s.call.from
      && t.ring.produced == s.ring.produced + Remaining(s.call.frame, s.call.part)
    decreases 3 - s.call.part
  {
    hide Next, SystemInv, Remaining;
    actions := [];
    if s.call.part < 3 {
      var f, k := s.call.frame, s.call.part;
      RemainingInParts(f, k);
      assert Part(f, k)[..|Part(f, k)|] == Part(f, k);
      InvOf(s);
      FreeIsRest(s.ring);
      var a := SendPart(s);
      var t := RunSends(s, a).value;
      InvOf(t);
      FreeIsRest(t.ring);
      var b := FinishWhole(t);
      Then(s, a, b);
      actions := a + b;
      Assoc(s.ring.produced, Part(f, k), Remaining(f, k + 1));
    } else {
      NothingRemains(s.call.frame);
      assert s.ring.produced + [] == s.ring.produced;
    }
  }

  lemma NothingRemains(f: Frame)
    ensures Remaining(f, 3) == []
  {
  }

  /** What can go wrong: on a full ring that the host empties after the first ring write, the length byte is lost and the
      rest of the frame is sent. */
  lemma LengthCanBeLost(s: System, f: Frame) returns (actions: seq<Action>)
    requires SystemInv(s) && (s.call.Quiet? || Sent(s)) && s.ring.consumer == RIdle
    requires s.ring.Free() == 0 && s.ring.size - 1 >= |f.payload| + 1
    ensures SameCall(actions) && Completes(s, f, actions)
    ensures var t := RunSends(Entered(s, f), actions).value;
      t.call.from <= |t.ring.produced| && Appended(t) == [f.cmd] + f.payload
  {
    var begun := Entered(s, f);
    NextKeepsInv(s, EnterSend(f));
    hide Next, SystemInv;
    var a := SendPart(begun);
    var full := RunSends(begun, a).value;
    assert full.ring.produced == s.ring.produced + Part(f, 0)[..0] == s.ring.produced;
    var drain := Drain(full);
    Then(begun, a, drain);
    var empty := RunSends(full, drain).value;
    InvOf(empty);
    FreeIsRest(empty.ring);
    var b := FinishWhole(empty);
    Then(begun, a + drain, b);
    actions := a + drain + b;
    DropOfSum(s.ring.produced, [f.cmd] + f.payload, |s.ring.produced|);
  }

  lemma InvOf(s: System)
    requires SystemInv(s)
    ensures Inv(s.ring)
  {
  }

  /** The host reads everything while the sender does nothing. */
  lemma Drain(s: System) returns (actions: seq<Action>)
    requires SystemInv(s) && s.ring.consumer == RIdle
    ensures SameCall(actions) && RunSends(s, actions).Some?
    ensures var t := RunSends(s, actions).value;
      && SystemInv(t) && t.call == s.call && t.ring.produced == s.ring.produced && t.ring.size == s.ring.size
      && t.ring.consumer == RIdle && |t.ring.consumed| == |t.ring.produced|
  {
    var want := |s.ring.Queue()|;
    var steps := ReadAlone(s.ring, want, seq(want, i => 0));
    RunMoves(s, steps);
    actions := Moves(steps);
    SendsKeepInv(s, actions);
  }
}
