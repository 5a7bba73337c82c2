/** `command_send` of panda/m3/command.c on a ring that the host keeps reading: every step of a `ringbuf_read` may come
    between any two steps of its three ring writes. */
module ReplyChannel {
  import opened Basics
  import opened Ring
  import opened SharedRing
  import opened SharedRingSafety
  import opened RingSolo
  import opened Frames

  /** Where `command_send` is: `part` of its three ring writes are done. `from` and `free0` are the number of bytes
      produced and the free space when it was called (history only). */
  datatype SendCall =
    | Quiet
    | Between(frame: Frame, part: nat, from: nat, free0: nat)
    | InRing(frame: Frame, part: nat, from: nat, free0: nat)

  datatype System = System(ring: State, call: SendCall)

  datatype Action =
    | RingMoves(step: Step)
    | EnterSend(frame: Frame)
    | NextPart
    | PartDone

  /** What is written: the length, the command, the data. */
  function Part(f: Frame, part: nat): seq<byte> {
    if part == 0 then [|f.payload|] else if part == 1 then [f.cmd] else f.payload
  }

  /** How many bytes of the frame come before a part. */
  function Offset(f: Frame, part: nat): nat {
    if part <= 2 then part else |f.payload| + 2
  }

  /** The host may do anything a consumer can do; the sender's own writes begin and end in `command_send`. */
  predicate IsFree(step: Step) {
    !IsProducerStep(step) || IsInnerStep(step)
  }

  ghost function Next(s: System, a: Action): (next: Option<System>)
    requires s.ring.WellFormed()
    ensures next.Some? ==> next.value.ring.WellFormed()
  {
    match (a, s.call)
    case (RingMoves(step), _) =>
      if IsFree(step) && Apply(s.ring, step).Some? then Some(s.(ring := Apply(s.ring, step).value)) else None
    case (EnterSend(f), Quiet) => Some(Entered(s, f))
    case (EnterSend(f), Between(_, part, _, _)) => if part == 3 then Some(Entered(s, f)) else None
    case (NextPart, Between(f, part, from, free0)) =>
      if part < 3 && s.ring.producer.WIdle? then
        Some(System(ProducerStep(s.ring, BeginWrite(Part(f, part))).value, InRing(f, part, from, free0)))
      else None
    case (PartDone, InRing(f, part, from, free0)) =>
      if s.ring.producer.WReturned? then
        Some(System(ProducerStep(s.ring, EndWrite).value, Between(f, part + 1, from, free0)))
      else None
    case _ => None
  }

  ghost function Entered(s: System, f: Frame): System
    requires s.ring.WellFormed()
  {
    s.(call := Between(f, 0, |s.ring.produced|, s.ring.Free()))
  }

  /** The state after `actions`, if each of them was possible. */
  ghost function RunSends(s: System, actions: seq<Action>): (end: Option<System>)
    requires s.ring.WellFormed()
    ensures end.Some? ==> end.value.ring.WellFormed()
    decreases |actions|
  {
    if actions == [] then Some(s)
    else
      match Next(s, actions[0])
      case None => None
      case Some(t) => RunSends(t, actions[1..])
  }

  /** What a `command_send` remembers of the moment it was called is so, and stays. */
  lemma SendRemembersEntry(s: System, a: Action)
    requires s.ring.WellFormed() && Next(s, a).Some? && !Next(s, a).value.call.Quiet?
    ensures var c, c' := s.call, Next(s, a).value.call;
      if a.EnterSend? then c'.frame == a.frame && c'.free0 == s.ring.Free() && c'.from == |s.ring.produced|
      else !c.Quiet? && c'.frame == c.frame && c'.free0 == c.free0 && c'.from == c.from
  {
    hide ProducerStep, Apply;
  }

  /** All three writes are done. */
  predicate Sent(s: System) {
    s.call.Between? && s.call.part == 3
  }

  ghost function JustWritten(ring: State): nat {
    if ring.producer.WReturned? then ring.producer.n else 0
  }

  /** The ring write in progress is of `part`, and found at least `least` cells free. */
  ghost predicate WritingPart(ring: State, part: seq<byte>, least: int) {
    match ring.producer
    case WReturned(n) => Min(|part|, least) <= n <= |part|
    case _ => Writing(ring.producer, part) && least <= ring.producer.free0
  }

  /** When there was room for all of the frame, what has been produced since is the frame so far. */
  ghost predicate CallInv(ring: State, call: SendCall)
    requires ring.WellFormed()
  {
    match call
    case Quiet => ring.producer == WIdle
    case Between(f, part, from, free0) =>
      && ring.producer == WIdle && part <= 3 && from <= |ring.produced|
      && (free0 >= |f.payload| + 2 ==>
            && free0 <= Offset(f, part) + ring.Free()
            && ring.produced[from..] == Encode(f)[..Offset(f, part)])
    case InRing(f, part, from, free0) =>
      && part < 3 && from <= |ring.produced|
      && WritingPart(ring, Part(f, part), if free0 >= |f.payload| + 2 then free0 - Offset(f, part) else 0)
      && (free0 >= |f.payload| + 2 ==>
            && free0 <= Offset(f, part) + JustWritten(ring) + ring.Free()
            && ring.produced[from..] == Encode(f)[..Offset(f, part) + JustWritten(ring)])
  }

  ghost predicate SystemInv(s: System) {
    Inv(s.ring) && CallInv(s.ring, s.call)
  }

  lemma FrameInParts(f: Frame, part: nat)
    requires part < 3
    ensures Encode(f)[..Offset(f, part)] + Part(f, part) == Encode(f)[..Offset(f, part + 1)]
    ensures |Part(f, part)| == Offset(f, part + 1) - Offset(f, part)
    ensures Offset(f, part + 1) <= |f.payload| + 2 == |Encode(f)|
  {
  }

  lemma CallUnderConsumer(s: System, step: Step)
    requires SystemInv(s) && !IsProducerStep(step) && Apply(s.ring, step).Some?
    ensures SystemInv(System(Apply(s.ring, step).value, s.call))
  {
    StepKeepsInv(s.ring, step);
    FillAndFreeOnlyGrow(s.ring, step);
  }

  lemma CallUnderPublish(s: System)
    requires SystemInv(s) && ProducerStep(s.ring, PublishWrite).Some?
    ensures SystemInv(System(ProducerStep(s.ring, PublishWrite).value, s.call))
  {
    var t := ProducerStep(s.ring, PublishWrite).value;
    var f, part, bytes := s.call.frame, s.call.part, s.ring.producer.bytes;
    PublishKeepsInv(s.ring, PublishWrite);
    FrameInParts(f, part);
    assert t.produced == s.ring.produced + bytes;
    assert t.produced[s.call.from..] == s.ring.produced[s.call.from..] + bytes;
    if s.call.free0 >= |f.payload| + 2 {
      assert bytes == Part(f, part);
    }
    hide Unread, Encode;
  }

  lemma CallBeforePublish(s: System, step: Step)
    requires SystemInv(s) && IsInnerStep(step) && IsProducerStep(step) && step != PublishWrite
    requires ProducerStep(s.ring, step).Some?
    ensures CallInv(ProducerStep(s.ring, step).value, s.call)
  {
    hide Unread, Encode;
  }

  lemma SenderKeepsInv(s: System, a: Action)
    requires SystemInv(s) && !a.RingMoves? && Next(s, a).Some?
    ensures SystemInv(Next(s, a).value)
  {
    match a
    case EnterSend(f) => assert s.ring.produced[|s.ring.produced|..] == [];
    case NextPart =>
      ProducerKeepsInv(s.ring, BeginWrite(Part(s.call.frame, s.call.part)));
    case PartDone =>
      ProducerKeepsInv(s.ring, EndWrite);
      FrameInParts(s.call.frame, s.call.part);
      hide Encode;
    case _ =>
  }

  lemma NextKeepsInv(s: System, a: Action)
    requires SystemInv(s) && Next(s, a).Some?
    ensures SystemInv(Next(s, a).value)
  {
    if a.RingMoves? {
      StepKeepsInv(s.ring, a.step);
      if !IsProducerStep(a.step) {
        CallUnderConsumer(s, a.step);
      } else if a.step == PublishWrite {
        CallUnderPublish(s);
      } else {
        CallBeforePublish(s, a.step);
      }
    } else {
      SenderKeepsInv(s, a);
    }
  }

  lemma {:induction false} SendsKeepInv(s: System, actions: seq<Action>)
    requires SystemInv(s) && RunSends(s, actions).Some?
    ensures SystemInv(RunSends(s, actions).value)
    decreases |actions|
  {
    if actions != [] {
      NextKeepsInv(s, actions[0]);
      SendsKeepInv(Next(s, actions[0]).value, actions[1..]);
    }
  }

  /** In every run with a reading host: a `command_send` that found room for its whole frame has appended exactly that
      frame when it is done, and the beginning of it until then. */
  lemma RoomMeansWholeFrame(start: System, actions: seq<Action>)
    requires Init(start.ring) && start.call == Quiet && RunSends(start, actions).Some?
    ensures var s := RunSends(start, actions).value;
      !s.call.Quiet? && s.call.free0 >= |s.call.frame.payload| + 2 ==>
        && s.call.from <= |s.ring.produced|
        && IsPrefix(s.ring.produced[s.call.from..], Encode(s.call.frame))
        && (Sent(s) ==> s.ring.produced[s.call.from..] == Encode(s.call.frame))
  {
    assert start.ring.produced == start.ring.consumed + start.ring.Queue();
    SendsKeepInv(start, actions);
  }
}
