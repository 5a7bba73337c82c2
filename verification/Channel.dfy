/** The whole command channel: the host writes frames to the device, the driver cuts them into chunks of at most
    512 bytes, the ring carries the bytes, and the firmware tick assembles and dispatches commands.
    The steps of both processors interleave freely. */
module Channel {
  import opened Basics
  import opened Ring
  import opened SharedRing
  import opened SharedRingSafety
  import opened Frames
  import opened Driver

  /** Where the host is inside the driver's `quadcopter_write`. `free0` and `from` are the free space and
      the number of bytes published on entry (history only). */
  datatype WriteCall =
    | Outside
    | AtLoop(written: nat, countLeft: nat, free0: nat, from: nat)
    | InRing(written: nat, countLeft: nat, chunk: seq<byte>, free0: nat, from: nat)

  /** `pending` is what `flush` still has to write. */
  datatype Host = Host(pending: seq<byte>, call: WriteCall, sent: seq<Frame>)

  datatype TickPoint =
    | Waiting                              // between two calls of command_process
    | Asking                               // in ringbuf_available_read
    | NeedsLength(avail: nat)
    | GettingLength(avail: nat)            // in ringbuf_getc
    | AtByte(avail: nat, i: nat)           // at the head of the for loop
    | GettingByte(avail: nat, i: nat)      // in ringbuf_getc
    | Halted                               // DASSERT(cmd < 128) failed: blink() never returns

  /** The statics of panda/m3/command.c; `bufI` is -1 between frames. */
  datatype Firmware = Firmware(
    point: TickPoint, buf: seq<byte>, bufI: int, bufLeft: int, bufLen: byte, dispatched: seq<Frame>)

  datatype System = System(ring: State, host: Host, m3: Firmware)

  datatype Action =
    | RingMoves(step: Step)
    | SendCommand(frame: Frame)
    | EnterWrite
    | NextChunk
    | LeaveWrite
    | ChunkDone
    | Tick
    | AvailKnown
    | AskLength(junk: byte)
    | LengthKnown
    | AskByte(junk: byte)
    | ByteKnown
    | EndTick

  function Calling(host: Host, call: WriteCall): Host {
    host.(call := call)
  }

  /** `return write_count`: `flush` drops what was accepted and will write the rest. */
  function Returned(host: Host, written: nat): Host
    requires written <= |host.pending|
  {
    host.(pending := host.pending[written..], call := Outside)
  }

  ghost function HostStep(s: System, a: Action): (next: Option<System>)
    requires s.ring.WellFormed()
    ensures next.Some? ==> next.value.ring.WellFormed() && next.value.m3 == s.m3
  {
    var h := s.host;
    match (a, h.call)
    case (SendCommand(f), Outside) =>
      if h.pending == [] then Some(s.(host := Host(Encode(f), Outside, h.sent + [f]))) else None
    case (EnterWrite, Outside) =>
      if h.pending != [] then Some(s.(host := Calling(h, AtLoop(0, |h.pending|, s.ring.Free(), |s.ring.produced|)))) else None
    case (NextChunk, AtLoop(written, countLeft, free0, from)) =>
      if written < |h.pending| then
        var toWrite := if countLeft > CHUNK then CHUNK else countLeft;
        if written + toWrite <= |h.pending| then
          var chunk := h.pending[written..written + toWrite];
          match ProducerStep(s.ring, BeginWrite(chunk))
          case None => None
          case Some(ring) => Some(s.(ring := ring, host := Calling(h, InRing(written, countLeft - toWrite, chunk, free0, from))))
        else None
      else None
    case (LeaveWrite, AtLoop(written, countLeft, free0, from)) =>
      if written == |h.pending| then Some(s.(host := Returned(h, written))) else None
    case (ChunkDone, InRing(written, countLeft, chunk, free0, from)) =>
      if s.ring.producer.WReturned? && written + s.ring.producer.n <= |h.pending| then
        var n := s.ring.producer.n;
        match ProducerStep(s.ring, EndWrite)
        case None => None
        case Some(ring) =>
          Some(s.(ring := ring,
                  host := if n < |chunk| then Returned(h, written + n)
                          else Calling(h, AtLoop(written + n, countLeft, free0, from))))
      else None
    case _ => None
  }

  ghost function FirmwareStep(s: System, a: Action): (next: Option<System>)
    requires s.ring.WellFormed()
    ensures next.Some? ==>
      && next.value.ring.WellFormed() && next.value.host == s.host && next.value.ring.producer == s.ring.producer
      && next.value.ring.produced == s.ring.produced && next.value.ring.size == s.ring.size
  {
    var m := s.m3;
    match (a, m.point)
    case (Tick, Waiting) => WithRing(s, BeginAvailable, m.(point := Asking))
    case (AvailKnown, Asking) =>
      if s.ring.consumer.AReturned? then
        var avail := s.ring.consumer.avail;
        WithRing(s, EndAvailable,
          m.(point := if avail == 0 then Waiting else if m.bufI == -1 then NeedsLength(avail) else AtByte(avail, 0)))
      else None
    case (AskLength(junk), NeedsLength(avail)) =>
      WithRing(s, BeginRead([junk], 1), m.(point := GettingLength(avail)))
    case (LengthKnown, GettingLength(avail)) =>
      if s.ring.consumer.RReturned? && |s.ring.consumer.out| == 1 && avail >= 1 then
        var c := s.ring.consumer.out[0];
        WithRing(s, EndRead, m.(point := AtByte(avail - 1, 0), bufLen := c, bufLeft := c as int + 1, bufI := 0))
      else None
    case (AskByte(junk), AtByte(avail, i)) =>
      if i < avail && i < m.bufLeft then
        WithRing(s, BeginRead([junk], 1), m.(point := GettingByte(avail, i)))
      else None
    case (ByteKnown, GettingByte(avail, i)) =>
      if s.ring.consumer.RReturned? && |s.ring.consumer.out| == 1 && 0 <= m.bufI < |m.buf| then
        var c := s.ring.consumer.out[0];
        WithRing(s, EndRead, m.(point := AtByte(avail, i + 1), buf := m.buf[m.bufI := c], bufI := m.bufI + 1))
      else None
    case (EndTick, AtByte(avail, i)) =>
      if i < avail && i < m.bufLeft then None else
        var left := m.bufLeft - i;
        if left != 0 then Some(s.(m3 := m.(point := Waiting, bufLeft := left)))
        else if |m.buf| < 256 then None
        else if m.buf[0] >= 128 then Some(s.(m3 := m.(point := Halted, bufLeft := left)))
        else Some(s.(m3 := m.(point := Waiting, bufLeft := left, bufI := -1,
                              dispatched := m.dispatched + [Frame(m.buf[0], m.buf[1..1 + m.bufLen as int])])))
    case _ => None
  }

  ghost function WithRing(s: System, step: Step, m3: Firmware): (next: Option<System>)
    requires s.ring.WellFormed()
    ensures next.Some? ==>
      && next.value.ring.WellFormed() && next.value.host == s.host && next.value.ring.producer == s.ring.producer
      && next.value.ring.produced == s.ring.produced && next.value.ring.size == s.ring.size
  {
    match ConsumerStep(s.ring, step)
    case None => None
    case Some(ring) => Some(s.(ring := ring, m3 := m3))
  }

  ghost function Next(s: System, a: Action): (next: Option<System>)
    requires s.ring.WellFormed()
    ensures next.Some? ==> next.value.ring.WellFormed()
  {
    match a
    case RingMoves(step) =>
      if IsInnerStep(step) then
        match Apply(s.ring, step)
        case None => None
        case Some(ring) => Some(s.(ring := ring))
      else None
    case SendCommand(_) => HostStep(s, a)
    case EnterWrite => HostStep(s, a)
    case NextChunk => HostStep(s, a)
    case LeaveWrite => HostStep(s, a)
    case ChunkDone => HostStep(s, a)
    case _ => FirmwareStep(s, a)
  }

  /** The state after `actions`, if each of them was possible. */
  ghost function RunSystem(s: System, actions: seq<Action>): (end: Option<System>)
    requires s.ring.WellFormed()
    ensures end.Some? ==> end.value.ring.WellFormed()
    decreases |actions|
  {
    if actions == [] then Some(s)
    else
      match Next(s, actions[0])
      case None => None
      case Some(t) => RunSystem(t, actions[1..])
  }

  /** Ring initialised by both sides, `command_init` done, host idle. */
  ghost predicate Start(s: System) {
    && Init(s.ring)
    && s.host == Host([], Outside, [])
    && s.m3.point == Waiting
    && |s.m3.buf| == 256
    && s.m3.bufI == -1
    && s.m3.dispatched == []
  }
}
