/** End-to-end: the commands the firmware dispatches are the commands the host sent, in order. */
module ChannelSafety {
  import opened Basics
  import opened Ring
  import opened SharedRing
  import opened SharedRingSafety
  import opened Frames
  import opened Channel
  import opened Driver

  /** Bytes of `pending` that the ring call in progress has already published. */
  ghost function InFlight(ring: State): nat {
    if ring.producer.WReturned? then ring.producer.n else 0
  }

  /** The ring call in progress works on `chunk` and started with at least `least` cells free. */
  ghost predicate WritingChunk(ring: State, chunk: seq<byte>, least: int) {
    match ring.producer
    case WEntered(buf, _, free) => buf == chunk && least <= free
    case WLoaded(buf, _, _, free) => buf == chunk && least <= free
    case WCopying(bytes, asked, _, _, _, free) =>
      |bytes| <= |chunk| == asked && bytes == chunk[..|bytes|] && least <= free
    case WReturned(n) => Min(|chunk|, least) <= n <= |chunk|
    case WIdle => false
  }

  /** What was published and what the host still holds are together exactly the frames sent. */
  ghost predicate HostInv(ring: State, h: Host)
    requires ring.WellFormed()
  {
    match h.call
    case Outside =>
      ring.producer == WIdle && ring.produced + h.pending == EncodeAll(h.sent)
    case AtLoop(written, countLeft, free0, from) =>
      && ring.producer == WIdle
      && written + countLeft == |h.pending|
      && ring.produced + h.pending[written..] == EncodeAll(h.sent)
      && free0 <= written + ring.Free()
      && from + written == |ring.produced|
      && EncodeAll(h.sent)[from..] == h.pending
    case InRing(written, countLeft, chunk, free0, from) =>
      && written + |chunk| + countLeft == |h.pending|
      && (countLeft == 0 || |chunk| == CHUNK)
      && chunk == h.pending[written..written + |chunk|]
      && chunk != []
      && WritingChunk(ring, chunk, free0 - written)
      && ring.produced + h.pending[written + InFlight(ring)..] == EncodeAll(h.sent)
      && (ring.producer.WReturned? && ring.producer.n == |chunk| ==>
            free0 <= written + |chunk| + ring.Free())
      && from + written + InFlight(ring) == |ring.produced|
      && EncodeAll(h.sent)[from..] == h.pending
  }

  /** The bytes of the frame being assembled. */
  ghost function Partial(m: Firmware): seq<byte> {
    if 0 <= m.bufI <= |m.buf| then [m.bufLen] + m.buf[..m.bufI] else []
  }

  /** The call of `ringbuf_getc` in progress started on a ring that held a byte. */
  ghost predicate GettingByteInv(ring: State) {
    match ring.consumer
    case REntered(buf, count, _, fill0) => count == |buf| == 1 && fill0 >= 1
    case RLoaded(buf, count, _, _, fill0) => count == |buf| == 1 && fill0 >= 1
    case RCopying(n, count, _, _, _, out, fill0) => count == n == |out| == 1
    case RReturned(n, out) => n == |out| == 1
    case _ => false
  }

  ghost predicate Taken(ring: State) {
    ring.consumer.RReturned?
  }

  /** `cmd_buf_left` counts down to the end of the frame as `cmd_buf_i` counts up. */
  ghost predicate CountersMatch(m: Firmware, got: int) {
    && 0 <= m.bufI
    && m.bufI + (m.bufLeft - got) == m.bufLen + 1
    && 0 <= got <= m.bufLeft
  }

  /** Everything consumed is the dispatched frames and the frame being assembled;
      the snapshot of the fill taken at the start of the tick stays a lower bound. */
  ghost predicate FirmwareInv(ring: State, m: Firmware)
    requires ring.WellFormed()
  {
    && |m.buf| == 256
    && -1 <= m.bufI <= 256
    && ring.consumed == EncodeAll(m.dispatched) + Partial(m)
                        + (if Taken(ring) then ring.consumer.out[..ring.consumer.n] else [])
    && match m.point
       case Waiting =>
         ring.consumer == RIdle && (m.bufI == -1 || (CountersMatch(m, 0) && m.bufLeft >= 1))
       case Asking =>
         (ring.consumer.ALoaded? || ring.consumer.AReturned?)
         && (m.bufI == -1 || (CountersMatch(m, 0) && m.bufLeft >= 1))
       case NeedsLength(avail) =>
         ring.consumer == RIdle && m.bufI == -1 && 1 <= avail <= |ring.Queue()|
       case GettingLength(avail) =>
         GettingByteInv(ring) && m.bufI == -1 && 1 <= avail <= |ring.Queue()| + (if Taken(ring) then 1 else 0)
       case AtByte(avail, i) =>
         ring.consumer == RIdle && CountersMatch(m, i) && 0 <= avail - i <= |ring.Queue()|
       case GettingByte(avail, i) =>
         && GettingByteInv(ring)
         && CountersMatch(m, i) && i < m.bufLeft
         && 1 <= avail - i <= |ring.Queue()| + (if Taken(ring) then 1 else 0)
       case Halted =>
         ring.consumer == RIdle && m.bufI == m.bufLen + 1 && m.buf[0] >= 128
  }

  ghost predicate SystemInv(s: System) {
    && Inv(s.ring)
    && HostInv(s.ring, s.host)
    && FirmwareInv(s.ring, s.m3)
  }

  /** The firmware's invariant does not mind whatever the producer publishes. */
  lemma FirmwareUnderProducer(before: State, after: State, m: Firmware)
    requires before.WellFormed() && after.WellFormed() && FirmwareInv(before, m)
    requires after.consumer == before.consumer && after.consumed == before.consumed
    requires |before.Queue()| <= |after.Queue()|
    ensures FirmwareInv(after, m)
  {
    hide Unread, EncodeAll, Partial, Room, Fill;
  }

  /** The host's invariant does not mind whatever the consumer takes. */
  lemma HostUnderConsumer(before: State, after: State, h: Host)
    requires before.WellFormed() && after.WellFormed() && HostInv(before, h)
    requires after.producer == before.producer && after.produced == before.produced
    requires before.Free() <= after.Free()
    ensures HostInv(after, h)
  {
    hide Unread, EncodeAll, Encode, Room, Fill;
  }

  lemma HostUnderPublish(ring: State, next: State, h: Host)
    requires ring.WellFormed() && next.WellFormed() && HostInv(ring, h)
    requires ring.producer.WCopying? && next.producer == WReturned(|ring.producer.bytes|)
    requires next.produced == ring.produced + ring.producer.bytes
    requires next.Free() == ring.Free() - |ring.producer.bytes|
    requires ring.producer.free0 <= ring.Free() && Min(ring.producer.asked, ring.producer.free0) <= |ring.producer.bytes|
    ensures HostInv(next, h)
  {
    PublishedRest(ring.produced, h.pending, h.call.written, h.call.chunk, ring.producer.bytes);
    hide Unread, EncodeAll, Encode, Room, Fill;
  }

  /** Some bytes of a chunk move over to those published. */
  lemma PublishedRest(published: seq<byte>, p: seq<byte>, from: nat, chunk: seq<byte>, bytes: seq<byte>)
    requires from + |chunk| <= |p| && chunk == p[from..from + |chunk|] && IsPrefix(bytes, chunk)
    ensures (published + bytes) + p[from + |bytes|..] == published + p[from..]
  {
    assert p[from..] == bytes + p[from + |bytes|..];
  }

  lemma HostBeforePublish(ring: State, step: Step, h: Host)
    requires ring.WellFormed() && HostInv(ring, h)
    requires IsInnerStep(step) && !step.PublishWrite? && ProducerStep(ring, step).Some?
    ensures HostInv(ProducerStep(ring, step).value, h)
  {
  }

  lemma HostUnderProducer(ring: State, step: Step, h: Host)
    requires Inv(ring) && HostInv(ring, h)
    requires IsInnerStep(step) && ProducerStep(ring, step).Some?
    ensures HostInv(ProducerStep(ring, step).value, h)
  {
    if step.PublishWrite? {
      PublishKeepsInv(ring, step);
      HostUnderPublish(ring, ProducerStep(ring, step).value, h);
    } else {
      HostBeforePublish(ring, step, h);
    }
  }

  lemma FirmwareUnderConsumer(ring: State, step: Step, m: Firmware)
    requires Inv(ring) && FirmwareInv(ring, m)
    requires IsInnerStep(step) && ConsumerStep(ring, step).Some?
    ensures FirmwareInv(ConsumerStep(ring, step).value, m)
  {
    if step.PublishRead? {
      PublishReadKeepsInv(ring, step);
    }
  }

  lemma RingMoveKeeps(s: System, step: Step)
    requires SystemInv(s) && IsInnerStep(step) && Apply(s.ring, step).Some?
    ensures SystemInv(s.(ring := Apply(s.ring, step).value))
  {
    var ring := Apply(s.ring, step).value;
    StepKeepsInv(s.ring, step);
    FillAndFreeOnlyGrow(s.ring, step);
    if IsProducerStep(step) {
      HostUnderProducer(s.ring, step, s.host);
      FirmwareUnderProducer(s.ring, ring, s.m3);
    } else {
      FirmwareUnderConsumer(s.ring, step, s.m3);
      HostUnderConsumer(s.ring, ring, s.host);
    }
  }

  /** The ring step, if any, that an action of either side takes as it enters or leaves a ring call. */
  lemma HostStepKeepsRing(s: System, a: Action)
    requires Inv(s.ring) && HostStep(s, a).Some?
    ensures Inv(HostStep(s, a).value.ring)
    ensures HostStep(s, a).value.ring.Queue() == s.ring.Queue()
  {
    match a
    case NextChunk =>
      ProducerKeepsInv(s.ring, BeginWrite(HostStep(s, a).value.host.call.chunk));
    case ChunkDone =>
      ProducerKeepsInv(s.ring, EndWrite);
    case _ =>
  }

  lemma NextChunkKeepsHost(s: System)
    requires s.ring.WellFormed() && HostInv(s.ring, s.host) && HostStep(s, NextChunk).Some?
    ensures HostInv(HostStep(s, NextChunk).value.ring, HostStep(s, NextChunk).value.host)
  {
  }

  lemma ChunkDoneKeepsHost(s: System)
    requires s.ring.WellFormed() && HostInv(s.ring, s.host) && HostStep(s, ChunkDone).Some?
    ensures HostInv(HostStep(s, ChunkDone).value.ring, HostStep(s, ChunkDone).value.host)
  {
    var t := HostStep(s, ChunkDone).value;
    var c, n := s.host.call, s.ring.producer.n;
    assert t.ring == s.ring.(producer := WIdle);
    if n < |c.chunk| {
      assert t.host == Returned(s.host, c.written + n);
    } else {
      assert t.host.call == AtLoop(c.written + n, c.countLeft, c.free0, c.from);
    }
  }

  lemma HostStepKeepsHost(s: System, a: Action)
    requires s.ring.WellFormed() && HostInv(s.ring, s.host) && HostStep(s, a).Some?
    ensures HostInv(HostStep(s, a).value.ring, HostStep(s, a).value.host)
  {
    match a
    case SendCommand(f) =>
      EncodeAllSnoc(s.host.sent, f);
      assert s.ring.produced + [] == s.ring.produced;
    case NextChunk => NextChunkKeepsHost(s);
    case ChunkDone => ChunkDoneKeepsHost(s);
    case _ =>
  }

  lemma HostStepKeeps(s: System, a: Action)
    requires SystemInv(s) && HostStep(s, a).Some?
    ensures SystemInv(HostStep(s, a).value)
  {
    HostStepKeepsRing(s, a);
    HostStepKeepsHost(s, a);
    FirmwareUnderProducer(s.ring, HostStep(s, a).value.ring, s.m3);
  }

  lemma FirmwareStepKeepsRing(s: System, a: Action)
    requires Inv(s.ring) && FirmwareStep(s, a).Some?
    ensures Inv(FirmwareStep(s, a).value.ring)
    ensures FirmwareStep(s, a).value.ring.Free() == s.ring.Free()
  {
    match a
    case Tick => ConsumerKeepsInv(s.ring, BeginAvailable);
    case AvailKnown => ConsumerKeepsInv(s.ring, EndAvailable);
    case AskLength(junk) => ConsumerKeepsInv(s.ring, BeginRead([junk], 1));
    case LengthKnown => ConsumerKeepsInv(s.ring, EndRead);
    case AskByte(junk) => ConsumerKeepsInv(s.ring, BeginRead([junk], 1));
    case ByteKnown => ConsumerKeepsInv(s.ring, EndRead);
    case _ =>
  }

  lemma LengthKnownKeepsFirmware(s: System)
    requires s.ring.WellFormed() && FirmwareInv(s.ring, s.m3) && FirmwareStep(s, LengthKnown).Some?
    ensures FirmwareInv(FirmwareStep(s, LengthKnown).value.ring, FirmwareStep(s, LengthKnown).value.m3)
  {
  }

  lemma ByteKnownKeepsFirmware(s: System)
    requires s.ring.WellFormed() && FirmwareInv(s.ring, s.m3) && FirmwareStep(s, ByteKnown).Some?
    ensures FirmwareInv(FirmwareStep(s, ByteKnown).value.ring, FirmwareStep(s, ByteKnown).value.m3)
  {
    var m, c := s.m3, s.ring.consumer.out[0];
    var m' := FirmwareStep(s, ByteKnown).value.m3;
    assert m' == m.(point := AtByte(m.point.avail, m.point.i + 1), buf := m.buf[m.bufI := c], bufI := m.bufI + 1);
    OneMoreByte(m, m', c);
    assert s.ring.consumer.out[..1] == [c];
    hide Unread, EncodeAll, Fill, Partial;
    assert EncodeAll(m.dispatched) + (Partial(m) + [c]) + [] == EncodeAll(m.dispatched) + Partial(m) + [c];
  }

  lemma OneMoreByte(m: Firmware, m': Firmware, c: byte)
    requires 0 <= m.bufI < |m.buf| && m'.buf == m.buf[m.bufI := c] && m'.bufI == m.bufI + 1 && m'.bufLen == m.bufLen
    ensures Partial(m') == Partial(m) + [c]
  {
  }

  lemma PartialIsFrame(m: Firmware)
    requires |m.buf| == 256 && m.bufI == m.bufLen + 1
    ensures Partial(m) == Encode(Frame(m.buf[0], m.buf[1..1 + m.bufLen as int]))
  {
  }

  /** A completed frame is dispatched exactly as it was encoded. */
  lemma EndTickKeepsFirmware(s: System)
    requires s.ring.WellFormed() && FirmwareInv(s.ring, s.m3) && FirmwareStep(s, EndTick).Some?
    ensures FirmwareInv(FirmwareStep(s, EndTick).value.ring, FirmwareStep(s, EndTick).value.m3)
  {
    var m, m' := s.m3, FirmwareStep(s, EndTick).value.m3;
    if m'.bufI == -1 {
      var f := Frame(m.buf[0], m.buf[1..1 + m.bufLen as int]);
      PartialIsFrame(m);
      EncodeAllSnoc(m.dispatched, f);
      assert Partial(m') == [];
      assert m'.dispatched == m.dispatched + [f];
      hide EncodeAll, Encode, Partial, Unread, Fill;
    } else {
      assert Partial(m') == Partial(m);
      hide EncodeAll, Encode, Partial, Unread, Fill;
    }
  }

  lemma AskKeepsFirmware(s: System, a: Action)
    requires s.ring.WellFormed() && FirmwareInv(s.ring, s.m3) && FirmwareStep(s, a).Some?
    requires a.AskLength? || a.AskByte?
    ensures FirmwareInv(FirmwareStep(s, a).value.ring, FirmwareStep(s, a).value.m3)
  {
  }

  lemma SnapshotKeepsFirmware(s: System, a: Action)
    requires s.ring.WellFormed() && FirmwareInv(s.ring, s.m3) && ConsumerInv(s.ring) && FirmwareStep(s, a).Some?
    requires a.Tick? || a.AvailKnown?
    ensures FirmwareInv(FirmwareStep(s, a).value.ring, FirmwareStep(s, a).value.m3)
  {
  }

  lemma FirmwareStepKeeps(s: System, a: Action)
    requires SystemInv(s) && FirmwareStep(s, a).Some?
    ensures SystemInv(FirmwareStep(s, a).value)
  {
    FirmwareStepKeepsRing(s, a);
    HostUnderConsumer(s.ring, FirmwareStep(s, a).value.ring, s.host);
    match a
    case LengthKnown => LengthKnownKeepsFirmware(s);
    case ByteKnown => ByteKnownKeepsFirmware(s);
    case EndTick => EndTickKeepsFirmware(s);
    case AskLength(_) => AskKeepsFirmware(s, a);
    case AskByte(_) => AskKeepsFirmware(s, a);
    case _ => SnapshotKeepsFirmware(s, a);
  }

  lemma NextKeeps(s: System, a: Action)
    requires SystemInv(s) && Next(s, a).Some?
    ensures SystemInv(Next(s, a).value)
  {
    match a
    case RingMoves(step) => RingMoveKeeps(s, step);
    case SendCommand(_) => HostStepKeeps(s, a);
    case EnterWrite => HostStepKeeps(s, a);
    case NextChunk => HostStepKeeps(s, a);
    case LeaveWrite => HostStepKeeps(s, a);
    case ChunkDone => HostStepKeeps(s, a);
    case _ => FirmwareStepKeeps(s, a);
  }

  lemma {:induction false} RunKeepsSystemInv(s: System, actions: seq<Action>)
    requires SystemInv(s) && RunSystem(s, actions).Some?
    ensures SystemInv(RunSystem(s, actions).value)
    decreases |actions|
  {
    if actions != [] {
      NextKeeps(s, actions[0]);
      RunKeepsSystemInv(Next(s, actions[0]).value, actions[1..]);
    }
  }

  lemma StartIsInvariant(s: System)
    requires Start(s)
    ensures SystemInv(s)
  {
  }

  /** The host has nothing left to write, the ring is empty and the firmware is between two ticks. */
  ghost predicate Drained(s: System)
    requires s.ring.WellFormed()
  {
    && s.host.call == Outside && s.host.pending == []
    && s.ring.Queue() == []
    && s.m3.point == Waiting
  }

  lemma PartialIsNoFrame(s: System)
    requires SystemInv(s) && s.m3.point == Waiting
    ensures !HasFrame(Partial(s.m3)) && (Partial(s.m3) == [] <==> s.m3.bufI == -1)
  {
  }

  /** A drained channel has dispatched every frame sent, and the firmware is between two frames. */
  lemma DrainedMeansDelivered(s: System)
    requires SystemInv(s) && Drained(s)
    ensures s.m3.dispatched == s.host.sent && s.m3.bufI == -1
  {
    PartialIsNoFrame(s);
    assert !HasFrame([]);
    assert EncodeAll(s.m3.dispatched) + Partial(s.m3) == s.ring.consumed == s.ring.produced
        == EncodeAll(s.host.sent) + [];
    EncodeThenParse(s.m3.dispatched, Partial(s.m3));
    EncodeThenParse(s.host.sent, []);
  }

  /** End to end: in every run the commands dispatched are a prefix of the commands sent,
      and once the channel is drained all of them have been dispatched. */
  lemma DispatchedIsPrefixOfSent(start: System, actions: seq<Action>)
    requires Start(start) && RunSystem(start, actions).Some?
    ensures var s := RunSystem(start, actions).value;
      IsPrefix(s.m3.dispatched, s.host.sent) && (Drained(s) ==> s.m3.dispatched == s.host.sent)
  {
    var s := RunSystem(start, actions).value;
    StartIsInvariant(start);
    RunKeepsSystemInv(start, actions);
    if Drained(s) {
      DrainedMeansDelivered(s);
    }
    var taken := if Taken(s.ring) then s.ring.consumer.out[..s.ring.consumer.n] else [];
    Assoc(EncodeAll(s.m3.dispatched), Partial(s.m3), taken);
    assert IsPrefix(s.ring.consumed, s.ring.produced);
    assert IsPrefix(s.ring.produced, EncodeAll(s.host.sent));
    PrefixTransitive(s.ring.consumed, s.ring.produced, EncodeAll(s.host.sent));
    DecodedPrefix(s.m3.dispatched, Partial(s.m3) + taken, s.host.sent);
  }

  /** No `ringbuf_getc` of a tick ever runs on an empty ring: each returns the next byte of the stream,
      although the fill was looked at only once, at the start of the tick. */
  lemma GetcNeverRunsEmpty(start: System, actions: seq<Action>)
    requires Start(start) && RunSystem(start, actions).Some?
    ensures var s := RunSystem(start, actions).value;
      s.ring.consumer.RReturned? ==>
        && s.ring.consumer.n == 1
        && 1 <= |s.ring.consumed| <= |s.ring.produced|
        && s.ring.consumer.out == [s.ring.produced[|s.ring.consumed| - 1]]
  {
    StartIsInvariant(start);
    RunKeepsSystemInv(start, actions);
    var ring := RunSystem(start, actions).value.ring;
    if ring.consumer.RReturned? {
      assert ring.consumed[|ring.consumed| - 1] == ring.consumer.out[..1][0];
    }
  }

  /** What a `write` call remembers of the moment it was entered is so, and stays. */
  lemma WriteRemembersEntry(s: System, a: Action)
    requires s.ring.WellFormed() && Next(s, a).Some? && Next(s, a).value.host.call != Outside
    ensures var h, h' := s.host, Next(s, a).value.host;
      h'.pending == h.pending &&
      if h.call == Outside then h'.call.free0 == s.ring.Free() && h'.call.from == |s.ring.produced|
      else h'.call.free0 == h.call.free0 && h'.call.from == h.call.from
  {
    hide ProducerStep, ConsumerStep, FirmwareStep, Apply;
  }

  lemma ReturnMatchesPublished(s: System, last: Action)
    requires s.ring.WellFormed() && HostInv(s.ring, s.host) && s.host.call != Outside
    requires HostStep(s, last).Some? && HostStep(s, last).value.host.call == Outside
    ensures var t := HostStep(s, last).value;
      exists r: nat ::
        && Min(|s.host.pending|, s.host.call.free0) <= r <= |s.host.pending|
        && t.host.pending == s.host.pending[r..]
        && s.host.call.from <= |t.ring.produced|
        && t.ring.produced[s.host.call.from..] == s.host.pending[..r]
  {
    var r := s.host.call.written + InFlight(s.ring);
    var all, from := EncodeAll(s.host.sent), s.host.call.from;
    assert s.ring.produced == all[..from + r];
    assert all[..from + r][from..] == all[from..][..r];
  }

  /** A `write` call that returns has published exactly the first `r` bytes it was given, where `r` is at least what
      there was room for on entry: a reader running meanwhile can only raise it. */
  lemma WriteReturnsWhatItPublished(start: System, actions: seq<Action>, last: Action)
    requires Start(start) && RunSystem(start, actions).Some?
    requires var s := RunSystem(start, actions).value;
      s.host.call != Outside && Next(s, last).Some? && Next(s, last).value.host.call == Outside
    ensures var s, t := RunSystem(start, actions).value, Next(RunSystem(start, actions).value, last).value;
      exists r: nat ::
        && Min(|s.host.pending|, s.host.call.free0) <= r <= |s.host.pending|
        && t.host.pending == s.host.pending[r..]
        && s.host.call.from <= |t.ring.produced|
        && t.ring.produced[s.host.call.from..] == s.host.pending[..r]
  {
    StartIsInvariant(start);
    RunKeepsSystemInv(start, actions);
    ReturnMatchesPublished(RunSystem(start, actions).value, last);
  }

  ghost predicate ProducerCanMove(ring: State) {
    ring.WellFormed() && exists step :: IsInnerStep(step) && IsProducerStep(step) && Apply(ring, step).Some?
  }

  ghost predicate ConsumerCanMove(ring: State) {
    ring.WellFormed() && exists step :: IsInnerStep(step) && !IsProducerStep(step) && Apply(ring, step).Some?
  }

  /** A `ringbuf_write` in progress can take its next step whatever the other side does. */
  lemma WriteNeverBlocks(ring: State)
    requires ring.WellFormed() && !ring.producer.WIdle? && !ring.producer.WReturned?
    ensures ProducerCanMove(ring)
  {
    var step := PublishWrite;
    match ring.producer {
      case WEntered(_, _, _) => step := WriteLoadsReadPos;
      case WLoaded(_, _, _, _) => step := WriteClips;
      case WCopying(bytes, _, w, second, left, _) =>
        if left != {} {
          var i :| i in left;
          step := StoreByte(i);
        } else if !second && NeedsSecond(ring.size, w, |bytes|) {
          step := NextStore;
        }
    }
    assert Apply(ring, step).Some?;
  }

  lemma ReadNeverBlocks(ring: State)
    requires ring.WellFormed()
    requires ring.consumer.REntered? || ring.consumer.RLoaded? || ring.consumer.RCopying? || ring.consumer.ALoaded?
    ensures ConsumerCanMove(ring)
  {
    var step := PublishRead;
    match ring.consumer {
      case REntered(_, _, _, _) => step := ReadLoadsWritePos;
      case RLoaded(_, _, _, _, _) => step := ReadClips;
      case ALoaded(_, _) => step := AvailableClips;
      case RCopying(n, _, r, second, left, _, _) =>
        if left != {} {
          var i :| i in left;
          step := LoadByte(i);
        } else if !second && NeedsSecond(ring.size, r, n) {
          step := NextLoad;
        }
    }
    assert Apply(ring, step).Some?;
  }

  /** Nothing ever blocks: in every reachable state the host can move, and so can a firmware that has not halted. */
  lemma NeverStuck(start: System, actions: seq<Action>)
    requires Start(start) && RunSystem(start, actions).Some?
    ensures var s := RunSystem(start, actions).value;
      && (ProducerCanMove(s.ring) || exists a :: HostStep(s, a).Some?)
      && (s.m3.point == Halted || ConsumerCanMove(s.ring) || exists a :: FirmwareStep(s, a).Some?)
  {
    StartIsInvariant(start);
    RunKeepsSystemInv(start, actions);
    var s := RunSystem(start, actions).value;
    if s.host.call.InRing? && !s.ring.producer.WReturned? {
      WriteNeverBlocks(s.ring);
    } else {
      HostCanMove(s);
    }
    if s.ring.consumer.REntered? || s.ring.consumer.RLoaded? || s.ring.consumer.RCopying? || s.ring.consumer.ALoaded? {
      ReadNeverBlocks(s.ring);
    } else if s.m3.point != Halted {
      FirmwareCanMove(s);
    }
  }

  lemma HostCanMove(s: System)
    requires s.ring.WellFormed() && HostInv(s.ring, s.host) && (s.host.call.InRing? ==> s.ring.producer.WReturned?)
    ensures exists a :: HostStep(s, a).Some?
  {
    var a := ChunkDone;
    match s.host.call {
      case Outside => a := if s.host.pending == [] then SendCommand(Frame(0, [])) else EnterWrite;
      case AtLoop(written, _, _, _) => a := if written == |s.host.pending| then LeaveWrite else NextChunk;
      case InRing(_, _, _, _, _) =>
    }
    assert HostStep(s, a).Some?;
  }

  lemma FirmwareCanMove(s: System)
    requires s.ring.WellFormed() && FirmwareInv(s.ring, s.m3) && s.m3.point != Halted
    requires s.ring.consumer.RIdle? || s.ring.consumer.RReturned? || s.ring.consumer.AReturned?
    ensures exists a :: FirmwareStep(s, a).Some?
  {
    var a := Tick;
    match s.m3.point {
      case Waiting =>
      case Asking => a := AvailKnown;
      case NeedsLength(_) => a := AskLength(0);
      case GettingLength(_) => a := LengthKnown;
      case AtByte(avail, i) => a := if i < avail && i < s.m3.bufLeft then AskByte(0) else EndTick;
      case GettingByte(_, _) => a := ByteKnown;
    }
    assert FirmwareStep(s, a).Some?;
  }
}
