/** Replies get through: whatever frames the firmware answers with, some run delivers all of them. */
module ReplyProgress {
  import opened Basics
  import opened Ring
  import opened SharedRing
  import opened SharedRingSafety
  import opened Frames
  import opened ReplyDelivery
  import Reading = ReadChannel
  import ReadRuns = ReadOvershoot
  import SendRuns = ReplyLoss
  import Sending = ReplyChannel

  lemma {:induction false} RunConcat(s: System, a: seq<Action>, b: seq<Action>)
    requires s.ring.WellFormed() && RunReplies(s, a).Some?
    ensures RunReplies(s, a + b) == RunReplies(RunReplies(s, a).value, b)
    decreases |a|
  {
    if a == [] {
      assert a + b == b;
    } else {
      assert (a + b)[1..] == a[1..] + b;
      RunConcat(Next(s, a[0]).value, a[1..], b);
    }
  }

  function SendLift(a: Sending.Action): Action {
    if a.RingMoves? then RingMoves(a.step) else Sends(a)
  }

  function SendsLifted(actions: seq<Sending.Action>): seq<Action> {
    if actions == [] then [] else [SendLift(actions[0])] + SendsLifted(actions[1..])
  }

  /** What the sender does alone inside one call, it can do in the whole system. */
  lemma {:induction false} SenderRuns(s: System, actions: seq<Sending.Action>)
    requires s.ring.WellFormed() && Sending.RunSends(s.Sender(), actions).Some?
    requires SendRuns.SameCall(actions) && SendRuns.SenderAlone(actions)
    ensures var t := Sending.RunSends(s.Sender(), actions).value;
      RunReplies(s, SendsLifted(actions)) == Some(s.(ring := t.ring, send := t.call))
    decreases |actions|
  {
    if actions != [] {
      var t := Sending.Next(s.Sender(), actions[0]).value;
      var s' := s.(ring := t.ring, send := t.call);
      assert Next(s, SendLift(actions[0])) == Some(s');
      hide Sending.Next, Next;
      SenderRuns(s', actions[1..]);
    }
  }

  function ReadLift(a: Reading.Action): Action {
    if a.RingMoves? then RingMoves(a.step) else Reads(a)
  }

  function ReadsLifted(actions: seq<Reading.Action>): seq<Action> {
    if actions == [] then [] else [ReadLift(actions[0])] + ReadsLifted(actions[1..])
  }

  /** What the reader does alone without returning, it can do in the whole system. */
  lemma {:induction false} ReaderRuns(s: System, actions: seq<Reading.Action>)
    requires s.ring.WellFormed() && Reading.RunReads(s.Reader(), actions).Some?
    requires (s.read.AtLoop? || s.read.InRing?) && Reading.RunReads(s.Reader(), actions).value.call.AtLoop?
    requires ReadRuns.SameCall(actions) && ReadRuns.ReaderAlone(actions)
    ensures var t := Reading.RunReads(s.Reader(), actions).value;
      RunReplies(s, ReadsLifted(actions)) == Some(s.(ring := t.ring, read := t.call))
    decreases |actions|
  {
    if actions != [] {
      var t := Reading.Next(s.Reader(), actions[0]).value;
      var s' := s.(ring := t.ring, read := t.call);
      if t.call.Returned? {
        ReturnedStays(t, actions[1..]);
        assert false;
      }
      StaysInside(s.Reader(), actions[0]);
      assert s.received + [] == s.received;
      assert Next(s, ReadLift(actions[0])) == Some(s');
      hide Reading.Next, Next;
      ReaderRuns(s', actions[1..]);
    }
  }

  lemma StaysInside(s: Reading.System, a: Reading.Action)
    requires s.ring.WellFormed() && (s.call.AtLoop? || s.call.InRing?) && Reading.Next(s, a).Some?
    ensures !Reading.Next(s, a).value.call.NotCalled?
  {
    hide ConsumerStep;
  }

  lemma {:induction false} ReturnedStays(s: Reading.System, actions: seq<Reading.Action>)
    requires s.ring.WellFormed() && s.call.Returned? && Reading.RunReads(s, actions).Some? && ReadRuns.SameCall(actions)
    ensures Reading.RunReads(s, actions).value.call.Returned?
    decreases |actions|
  {
    if actions != [] {
      ReturnedStays(Reading.Next(s, actions[0]).value, actions[1..]);
    }
  }

  lemma BeginSend(s: System, f: Frame)
    requires SystemInv(s) && Delivered(s) && |f.payload| + 2 <= s.ring.size - 1
    ensures var t := Sending.Entered(s.Sender(), f);
      && Next(s, Sends(Sending.EnterSend(f))) ==
         Some(System(s.ring, t.call, s.read, s.replies + [f], s.received, s.roomy))
      && Sending.SystemInv(t) && t.ring.Free() >= |SendRuns.Remaining(f, 0)|
  {
    FillPlusRoom(s.ring.size, s.ring.writePos, s.ring.readPos);
    assert Sending.Next(s.Sender(), Sending.EnterSend(f)) == Some(Sending.Entered(s.Sender(), f));
    Sending.NextKeepsInv(s.Sender(), Sending.EnterSend(f));
    hide Sending.SystemInv, Reading.SystemInv;
  }

  /** One `command_send` on an empty ring, run to its end, sends its whole frame. */
  lemma SendOne(s: System, f: Frame) returns (actions: seq<Action>)
    requires SystemInv(s) && Delivered(s) && |f.payload| + 2 <= s.ring.size - 1
    ensures RunReplies(s, actions).Some?
    ensures var t := RunReplies(s, actions).value;
      && SystemInv(t) && Sending.Sent(t.Sender()) && t.replies == s.replies + [f] && t.roomy == s.roomy
      && t.read == s.read && t.ring.size == s.ring.size
  {
    BeginSend(s, f);
    assert s.ring.WellFormed();
    hide Next, Sending.Next, SystemInv, Sending.SystemInv;
    var begun := Sending.Entered(s.Sender(), f);
    var s' := System(s.ring, begun.call, s.read, s.replies + [f], s.received, s.roomy);
    var inner := SendRuns.FinishWhole(begun);
    SenderRuns(s', inner);
    SendSizeStays(begun, inner);
    actions := [Sends(Sending.EnterSend(f))] + SendsLifted(inner);
    ReplyDelivery.RunKeepsInv(s, actions);
  }

  lemma {:induction false} SendSizeStays(s: Sending.System, actions: seq<Sending.Action>)
    requires s.ring.WellFormed() && Sending.RunSends(s, actions).Some?
    ensures Sending.RunSends(s, actions).value.ring.size == s.ring.size
    decreases |actions|
  {
    if actions != [] {
      SendSizeStays(Sending.Next(s, actions[0]).value, actions[1..]);
    }
  }

  lemma BeginRead(s: System)
    requires SystemInv(s) && (s.read.NotCalled? || s.read.Returned?)
    ensures var t := Reading.Entered(s.Reader(), 1);
      && Next(s, Reads(Reading.EnterRead(1))) == Some(s.(read := t.call)) && Reading.SystemInv(t)
  {
    assert s.received + [] == s.received;
    assert Reading.Next(s.Reader(), Reading.EnterRead(1)) == Some(Reading.Entered(s.Reader(), 1));
    Reading.NextKeepsInv(s.Reader(), Reading.EnterRead(1));
    hide Sending.SystemInv, Reading.SystemInv;
  }

  lemma EndRead(s: System) returns (t: System)
    requires s.ring.WellFormed() && s.read.AtLoop? && |s.read.delivered| >= s.read.count
    ensures RunReplies(s, [Reads(Reading.LeaveRead)]) == Some(t)
    ensures t.read.Returned? && t.ring == s.ring && t.send == s.send && t.replies == s.replies && t.roomy == s.roomy
  {
    t := Next(s, Reads(Reading.LeaveRead)).value;
    assert [Reads(Reading.LeaveRead)][1..] == [];
  }

  /** A `quadcopter_read` of one byte on a ring that is not empty, run to its end, takes something. */
  lemma ReadOne(s: System) returns (actions: seq<Action>)
    requires SystemInv(s) && (s.read.NotCalled? || s.read.Returned?) && s.ring.Queue() != []
    ensures RunReplies(s, actions).Some?
    ensures var t := RunReplies(s, actions).value;
      && SystemInv(t) && t.read.Returned? && |t.ring.Queue()| < |s.ring.Queue()|
      && t.send == s.send && t.replies == s.replies && t.roomy == s.roomy && t.ring.size == s.ring.size
  {
    BeginRead(s);
    assert s.ring.WellFormed();
    hide Next, Reading.Next, SystemInv, Reading.SystemInv;
    var begun := Reading.Entered(s.Reader(), 1);
    var s' := s.(read := begun.call);
    var inner := ReadRuns.TakeChunk(begun);
    var taken := Reading.RunReads(begun, inner).value;
    ReaderRuns(s', inner);
    var t := EndRead(s'.(ring := taken.ring, read := taken.call));
    RunConcat(s', ReadsLifted(inner), [Reads(Reading.LeaveRead)]);
    actions := [Reads(Reading.EnterRead(1))] + (ReadsLifted(inner) + [Reads(Reading.LeaveRead)]);
    ReplyDelivery.RunKeepsInv(s, actions);
  }

  /** Reading until nothing is left. */
  lemma {:induction false} ReadAll(s: System) returns (actions: seq<Action>)
    requires SystemInv(s) && (s.read.NotCalled? || s.read.Returned?) && (s.send.Quiet? || Sending.Sent(s.Sender()))
    ensures RunReplies(s, actions).Some?
    ensures var t := RunReplies(s, actions).value;
      SystemInv(t) && Delivered(t) && t.replies == s.replies && t.roomy == s.roomy && t.ring.size == s.ring.size
    decreases |s.ring.Queue()|
  {
    assert s.ring.WellFormed();
    hide SystemInv;
    if s.ring.Queue() == [] {
      actions := [];
    } else {
      var a := ReadOne(s);
      var b := ReadAll(RunReplies(s, a).value);
      RunConcat(s, a, b);
      actions := a + b;
    }
  }

  /** Any frames that fit into the empty ring, one at a time, can be answered with and get through: some run from the start
      sends exactly them, each with room for all of it, and the host receives exactly their encodings. */
  lemma {:induction false} AnyRepliesGetThrough(start: System, fs: seq<Frame>) returns (actions: seq<Action>)
    requires Start(start) && forall f :: f in fs ==> |f.payload| + 2 <= start.ring.size - 1
    ensures RunReplies(start, actions).Some?
    ensures var s := RunReplies(start, actions).value;
      && SystemInv(s) && Delivered(s) && s.roomy && s.ring.size == start.ring.size
      && s.replies == fs && s.received == EncodeAll(fs)
  {
    StartIsInvariant(start);
    if fs == [] {
      actions := [];
    } else {
      var last := fs[|fs| - 1];
      assert fs[..|fs| - 1] + [last] == fs;
      var a := AnyRepliesGetThrough(start, fs[..|fs| - 1]);
      var s := RunReplies(start, a).value;
      hide SystemInv;
      var b := SendOne(s, last);
      var c := ReadAll(RunReplies(s, b).value);
      RunConcat(start, a, b);
      RunConcat(start, a + b, c);
      actions := a + b + c;
      DeliveredIsReceived(RunReplies(start, actions).value);
    }
  }

  lemma DeliveredIsReceived(s: System)
    requires SystemInv(s) && Delivered(s) && s.roomy
    ensures s.received == EncodeAll(s.replies)
  {
    ProducedIsReplies(s);
    assert s.ring.produced == s.ring.consumed + [];
  }
}
