/** The other direction end to end: the replies of the firmware, through the ring that both ends work on at once, the
    driver's read loop and the host's frame reader. */
module ReplyDelivery {
  import opened Basics
  import opened Ring
  import opened SharedRing
  import opened SharedRingSafety
  import opened Frames
  import Copter
  import Driver
  import Reading = ReadChannel
  import Sending = ReplyChannel

  /** `replies` are the frames for which `command_send` was called, `received` the bytes that finished calls of
      `quadcopter_read` delivered; `roomy` says that each `command_send` found room for its whole frame. */
  datatype System = System(
    ring: State, send: Sending.SendCall, read: Reading.ReadCall,
    replies: seq<Frame>, received: seq<byte>, roomy: bool)
  {
    ghost function Sender(): Sending.System {
      Sending.System(ring, send)
    }

    ghost function Reader(): Reading.System {
      Reading.System(ring, read)
    }
  }

  datatype Action =
    | RingMoves(step: Step)
    | Sends(send: Sending.Action)
    | Reads(read: Reading.Action)

  ghost function Next(s: System, a: Action): (next: Option<System>)
    requires s.ring.WellFormed()
    ensures next.Some? ==> next.value.ring.WellFormed()
  {
    match a
    case RingMoves(step) =>
      if IsInnerStep(step) && Apply(s.ring, step).Some? then Some(s.(ring := Apply(s.ring, step).value)) else None
    case Sends(send) =>
      if send.RingMoves? || Sending.Next(s.Sender(), send) == None then None
      else
        var t := Sending.Next(s.Sender(), send).value;
        if send.EnterSend? then
          Some(System(t.ring, t.call, s.read, s.replies + [send.frame], s.received,
                      s.roomy && s.ring.Free() >= |send.frame.payload| + 2))
        else Some(System(t.ring, t.call, s.read, s.replies, s.received, s.roomy))
    case Reads(read) =>
      if read.RingMoves? || Reading.Next(s.Reader(), read) == None then None
      else
        var t := Reading.Next(s.Reader(), read).value;
        Some(System(t.ring, s.send, t.call, s.replies,
                    s.received + (if t.call.Returned? then t.call.delivered else []), s.roomy))
  }

  /** The state after `actions`, if each of them was possible. */
  ghost function RunReplies(s: System, actions: seq<Action>): (end: Option<System>)
    requires s.ring.WellFormed()
    ensures end.Some? ==> end.value.ring.WellFormed()
    decreases |actions|
  {
    if actions == [] then Some(s)
    else
      match Next(s, actions[0])
      case None => None
      case Some(t) => RunReplies(t, actions[1..])
  }

  ghost predicate Start(s: System) {
    && Init(s.ring)
    && s.send == Sending.Quiet && s.read == Reading.NotCalled
    && s.replies == [] && s.received == [] && s.roomy
  }

  /** What was produced before the reply in progress are the replies before it. */
  ghost predicate SendAccount(s: System) {
    if s.send.Quiet? then s.replies == [] && s.ring.produced == []
    else
      && s.replies != [] && s.send.frame == s.replies[|s.replies| - 1]
      && s.send.from <= |s.ring.produced|
      && (s.roomy ==>
            && s.send.free0 >= |s.send.frame.payload| + 2
            && s.ring.produced[..s.send.from] == EncodeAll(s.replies[..|s.replies| - 1]))
  }

  /** What was consumed before the read in progress is what was received. */
  ghost predicate ReadAccount(s: System) {
    match s.read
    case NotCalled => s.ring.consumed == s.received
    case Returned(_, _, _, _) => s.ring.consumed == s.received
    case _ => s.read.from <= |s.ring.consumed| && s.ring.consumed[..s.read.from] == s.received
  }

  ghost predicate SystemInv(s: System) {
    && Sending.SystemInv(s.Sender()) && Reading.SystemInv(s.Reader())
    && SendAccount(s) && ReadAccount(s)
  }

  /** Steps of the ring only add to what was produced and consumed. */
  lemma HistoryGrows(ring: State, step: Step)
    requires ring.WellFormed() && Apply(ring, step).Some?
    ensures IsPrefix(ring.produced, Apply(ring, step).value.produced)
    ensures IsPrefix(ring.consumed, Apply(ring, step).value.consumed)
    ensures IsProducerStep(step) ==> Apply(ring, step).value.consumed == ring.consumed
    ensures !IsProducerStep(step) ==> Apply(ring, step).value.produced == ring.produced
    ensures !step.PublishWrite? ==> Apply(ring, step).value.produced == ring.produced
    ensures !step.PublishRead? ==> Apply(ring, step).value.consumed == ring.consumed
  {
  }

  lemma PrefixKeepsFirst<T>(a: seq<T>, b: seq<T>, n: nat)
    requires IsPrefix(a, b) && n <= |a|
    ensures b[..n] == a[..n]
  {
  }

  lemma RingKeepsInv(s: System, step: Step)
    requires SystemInv(s) && IsInnerStep(step) && Apply(s.ring, step).Some?
    ensures SystemInv(s.(ring := Apply(s.ring, step).value))
  {
    var t := s.(ring := Apply(s.ring, step).value);
    Sending.NextKeepsInv(s.Sender(), Sending.RingMoves(step));
    Reading.NextKeepsInv(s.Reader(), Reading.RingMoves(step));
    assert Sending.Next(s.Sender(), Sending.RingMoves(step)) == Some(t.Sender());
    assert Reading.Next(s.Reader(), Reading.RingMoves(step)) == Some(t.Reader());
    RingKeepsAccounts(s, step);
    hide Apply, Sending.SystemInv, Reading.SystemInv, SendAccount, ReadAccount;
  }

  lemma RingKeepsAccounts(s: System, step: Step)
    requires SystemInv(s) && IsInnerStep(step) && Apply(s.ring, step).Some?
    ensures SendAccount(s.(ring := Apply(s.ring, step).value))
    ensures ReadAccount(s.(ring := Apply(s.ring, step).value))
  {
    var t := s.(ring := Apply(s.ring, step).value);
    HistoryGrows(s.ring, step);
    if step.PublishRead? {
      ReadsPublishInside(s, step);
    }
    if step.PublishWrite? {
      WritesPublishInside(s, step);
    }
    hide Apply, Sending.SystemInv, Reading.SystemInv;
    if !s.send.Quiet? {
      PrefixKeepsFirst(s.ring.produced, t.ring.produced, s.send.from);
    }
    if s.read.AtLoop? || s.read.InRing? {
      PrefixKeepsFirst(s.ring.consumed, t.ring.consumed, s.read.from);
    }
  }

  lemma ReadsPublishInside(s: System, step: Step)
    requires SystemInv(s) && Apply(s.ring, step).Some? && step.PublishRead?
    ensures s.read.InRing?
  {
  }

  lemma WritesPublishInside(s: System, step: Step)
    requires SystemInv(s) && Apply(s.ring, step).Some? && step.PublishWrite?
    ensures s.send.InRing?
  {
  }

  /** Everything produced between two replies, all of which had room, are the replies. */
  lemma ProducedIsReplies(s: System)
    requires SystemInv(s) && s.roomy && (s.send.Quiet? || Sending.Sent(s.Sender()))
    ensures s.ring.produced == EncodeAll(s.replies)
  {
    if !s.send.Quiet? {
      var n, from := |s.replies| - 1, s.send.from;
      EncodeAllSnoc(s.replies[..n], s.replies[n]);
      assert s.replies == s.replies[..n] + [s.replies[n]];
      assert s.ring.produced == s.ring.produced[..from] + s.ring.produced[from..];
      assert Encode(s.send.frame)[..|s.send.frame.payload| + 2] == Encode(s.send.frame);
    }
  }

  lemma EnterSendKeepsAccount(s: System, f: Frame)
    requires SystemInv(s) && Next(s, Sends(Sending.EnterSend(f))).Some?
    ensures SendAccount(Next(s, Sends(Sending.EnterSend(f))).value)
  {
    var t := Next(s, Sends(Sending.EnterSend(f))).value;
    if t.roomy {
      ProducedIsReplies(s);
    }
    assert t.replies[..|t.replies| - 1] == s.replies;
    assert s.ring.produced[..|s.ring.produced|] == s.ring.produced;
  }

  /** The ring step with which the sender enters or leaves a ring write. */
  lemma SenderMovesRing(s: System, a: Sending.Action)
    requires SystemInv(s) && !a.RingMoves? && Sending.Next(s.Sender(), a).Some?
    ensures var t := Sending.Next(s.Sender(), a).value;
      && t.ring.produced == s.ring.produced && t.ring.consumed == s.ring.consumed
      && Reading.SystemInv(Reading.System(t.ring, s.read))
  {
    match a
    case NextPart =>
      var step := BeginWrite(Sending.Part(s.send.frame, s.send.part));
      assert Reading.Next(s.Reader(), Reading.RingMoves(step)).Some?;
      Reading.NextKeepsInv(s.Reader(), Reading.RingMoves(step));
    case PartDone =>
      assert Reading.Next(s.Reader(), Reading.RingMoves(EndWrite)).Some?;
      Reading.NextKeepsInv(s.Reader(), Reading.RingMoves(EndWrite));
    case _ =>
  }

  lemma SendKeepsInv(s: System, a: Sending.Action)
    requires SystemInv(s) && Next(s, Sends(a)).Some?
    ensures SystemInv(Next(s, Sends(a)).value)
  {
    Sending.NextKeepsInv(s.Sender(), a);
    SenderMovesRing(s, a);
    if a.EnterSend? {
      EnterSendKeepsAccount(s, a.frame);
    }
    hide Sending.SystemInv, Reading.SystemInv, ProducerStep;
  }

  /** The step of the ring with which the read loop enters or leaves a ring read, if it does. */
  lemma LoopUsesRing(s: Reading.System, a: Reading.Action) returns (step: Option<Step>)
    requires s.ring.WellFormed() && !a.RingMoves? && Reading.Next(s, a).Some?
    ensures var t := Reading.Next(s, a).value;
      match step
      case None => t.ring == s.ring
      case Some(x) => (x.BeginRead? || x.EndRead?) && ConsumerStep(s.ring, x) == Some(t.ring)
  {
    match a
    case NextChunk(kbuf) => step := Some(BeginRead(kbuf, Driver.CHUNK));
    case ChunkDone => step := Some(EndRead);
    case _ => step := None;
  }

  lemma ReaderMovesRing(s: System, a: Reading.Action)
    requires SystemInv(s) && !a.RingMoves? && Reading.Next(s.Reader(), a).Some?
    ensures var t := Reading.Next(s.Reader(), a).value;
      && t.ring.produced == s.ring.produced && t.ring.consumed == s.ring.consumed
      && Sending.SystemInv(Sending.System(t.ring, s.send))
  {
    var step := LoopUsesRing(s.Reader(), a);
    hide Sending.SystemInv, Reading.SystemInv, Reading.Next, ConsumerStep;
    if step.Some? {
      ReaderStep(s, step.value);
    }
  }

  lemma ReaderStep(s: System, step: Step)
    requires SystemInv(s) && (step.BeginRead? || step.EndRead?) && ConsumerStep(s.ring, step).Some?
    ensures var ring := ConsumerStep(s.ring, step).value;
      && ring.produced == s.ring.produced && ring.consumed == s.ring.consumed
      && Sending.SystemInv(Sending.System(ring, s.send))
  {
    HistoryGrows(s.ring, step);
    assert Sending.Next(s.Sender(), Sending.RingMoves(step)) ==
      Some(Sending.System(ConsumerStep(s.ring, step).value, s.send));
    hide ConsumerStep, Inv;
    Sending.NextKeepsInv(s.Sender(), Sending.RingMoves(step));
  }

  /** What a step of the read loop changes, and that it adds what a returning read delivered. */
  lemma ReadFields(s: System, a: Reading.Action)
    requires s.ring.WellFormed() && Next(s, Reads(a)).Some?
    ensures !a.RingMoves? && Reading.Next(s.Reader(), a).Some?
    ensures var t := Next(s, Reads(a)).value;
      && t.Reader() == Reading.Next(s.Reader(), a).value
      && t.received == if t.read.Returned? then s.received + t.read.delivered else s.received
  {
    assert s.received + [] == s.received;
    hide Reading.Next;
  }

  lemma ReadKeepsAccount(s: System, a: Reading.Action)
    requires SystemInv(s) && Next(s, Reads(a)).Some?
    requires Reading.SystemInv(Reading.Next(s.Reader(), a).value)
    ensures ReadAccount(Next(s, Reads(a)).value)
  {
    var t := Next(s, Reads(a)).value;
    ReadFields(s, a);
    ReaderMovesRing(s, a);
    CallMoves(s.Reader(), a);
    ReturnedIsTail(t.Reader());
    hide Next, Reading.Next, Reading.SystemInv, Sending.SystemInv, SendAccount;
    if t.read.Returned? {
      assert t.ring.consumed == t.ring.consumed[..t.read.from] + t.ring.consumed[t.read.from..];
    } else {
      assert t.ring.consumed[..|t.ring.consumed|] == t.ring.consumed;
    }
  }

  /** A read begins behind everything consumed, and remembers where it began. */
  lemma CallMoves(s: Reading.System, a: Reading.Action)
    requires s.ring.WellFormed() && !a.RingMoves? && Reading.Next(s, a).Some?
    ensures var t := Reading.Next(s, a).value;
      if a.EnterRead? then
        (s.call.NotCalled? || s.call.Returned?) && t.call.AtLoop? && t.call.from == |s.ring.consumed|
      else
        (s.call.AtLoop? || s.call.InRing?) && !t.call.NotCalled? && t.call.from == s.call.from
  {
    hide ConsumerStep;
  }

  lemma ReturnedIsTail(s: Reading.System)
    requires Reading.SystemInv(s)
    ensures s.call.Returned? ==>
      s.call.from <= |s.ring.consumed| && s.ring.consumed[s.call.from..] == s.call.delivered
  {
  }

  lemma ReadKeepsInv(s: System, a: Reading.Action)
    requires SystemInv(s) && Next(s, Reads(a)).Some?
    ensures SystemInv(Next(s, Reads(a)).value)
  {
    Reading.NextKeepsInv(s.Reader(), a);
    ReaderMovesRing(s, a);
    ReadKeepsAccount(s, a);
    hide Sending.SystemInv, Reading.SystemInv, ConsumerStep, ReadAccount;
  }

  lemma {:induction false} RunKeepsInv(s: System, actions: seq<Action>)
    requires SystemInv(s) && RunReplies(s, actions).Some?
    ensures SystemInv(RunReplies(s, actions).value)
    decreases |actions|
  {
    if actions != [] {
      match actions[0] {
        case RingMoves(step) => RingKeepsInv(s, step);
        case Sends(a) => SendKeepsInv(s, a);
        case Reads(a) => ReadKeepsInv(s, a);
      }
      hide SystemInv;
      RunKeepsInv(Next(s, actions[0]).value, actions[1..]);
    }
  }

  lemma StartIsInvariant(s: System)
    requires Start(s)
    ensures SystemInv(s)
  {
    assert s.ring.produced == s.ring.consumed + s.ring.Queue();
  }

  /** Nobody is in the middle of anything and everything sent has been read. */
  ghost predicate Delivered(s: System)
    requires s.ring.WellFormed()
  {
    && (s.send.Quiet? || Sending.Sent(s.Sender()))
    && (s.read.NotCalled? || s.read.Returned?)
    && s.ring.Queue() == []
  }

  lemma ProducedIsPrefixOfReplies(s: System)
    requires SystemInv(s) && s.roomy
    ensures IsPrefix(s.ring.produced, EncodeAll(s.replies))
  {
    if !s.send.Quiet? {
      var n, from := |s.replies| - 1, s.send.from;
      EncodeAllSnoc(s.replies[..n], s.replies[n]);
      assert s.replies == s.replies[..n] + [s.replies[n]];
      AppendedIsPrefix(s);
      hide *;
      PrefixOfSum(s.ring.produced, from, EncodeAll(s.replies[..n]), Encode(s.replies[n]));
    }
  }

  lemma AppendedIsPrefix(s: System)
    requires SystemInv(s) && s.roomy && !s.send.Quiet?
    ensures s.send.from <= |s.ring.produced| && |s.replies| > 0
    ensures IsPrefix(s.ring.produced[s.send.from..], Encode(s.replies[|s.replies| - 1]))
    ensures s.ring.produced[..s.send.from] == EncodeAll(s.replies[..|s.replies| - 1])
  {
    hide Encode, EncodeAll, Inv;
  }

  lemma PrefixOfSum(p: seq<byte>, from: nat, a: seq<byte>, b: seq<byte>)
    requires from <= |p| && p[..from] == a && IsPrefix(p[from..], b)
    ensures IsPrefix(p, a + b)
  {
    assert p == p[..from] + p[from..];
  }

  lemma ReceivedIsPrefixOfProduced(s: System)
    requires SystemInv(s)
    ensures IsPrefix(s.received, s.ring.produced)
  {
    assert IsPrefix(s.ring.consumed, s.ring.produced);
    assert IsPrefix(s.received, s.ring.consumed);
    PrefixTransitive(s.received, s.ring.consumed, s.ring.produced);
  }

  /** End to end: when every reply found room for its whole frame, the frames in what the host has received are, in every
      run, a prefix of the replies sent, and all of them once everything has been delivered. */
  lemma ReceivedIsPrefixOfReplies(start: System, actions: seq<Action>)
    requires Start(start) && RunReplies(start, actions).Some? && RunReplies(start, actions).value.roomy
    ensures var s := RunReplies(start, actions).value;
      && IsPrefix(Parse(s.received).frames, s.replies)
      && (Delivered(s) ==> Parse(s.received) == Parsed(s.replies, []))
  {
    var s := RunReplies(start, actions).value;
    StartIsInvariant(start);
    RunKeepsInv(start, actions);
    ProducedIsPrefixOfReplies(s);
    ReceivedIsPrefixOfProduced(s);
    PrefixTransitive(s.received, s.ring.produced, EncodeAll(s.replies));
    ParseThenEncode(s.received);
    DecodedPrefix(Parse(s.received).frames, Parse(s.received).rest, s.replies);
    if Delivered(s) {
      ProducedIsReplies(s);
      assert s.ring.produced == s.ring.consumed + [] == s.received;
      assert !HasFrame([]);
      assert EncodeAll(s.replies) + [] == s.received;
      EncodeThenParse(s.replies, []);
    }
  }

  /** And so are the commands that the host's frame reader makes of it, whatever each of its reads is granted. */
  method ReceiveReplies(port: Copter.Port, ghost start: System, ghost actions: seq<Action>, n: nat)
    returns (got: seq<Frame>)
    requires Start(start) && RunReplies(start, actions).Some? && RunReplies(start, actions).value.roomy
    requires port.stream == RunReplies(start, actions).value.received && n == |Parse(port.stream).frames|
    modifies port
    ensures var s := RunReplies(start, actions).value;
      && IsPrefix(got, s.replies) && got == Parse(s.received).frames
      && (Delivered(s) ==> got == s.replies && port.stream == [])
  {
    ghost var p := Parse(port.stream);
    ReceivedIsPrefixOfReplies(start, actions);
    ParseThenEncode(port.stream);
    got := Copter.ReceiveAll(port, n, p.frames, p.rest);
  }
}
