/** panda/common/ringbuf.c run by two processors at once.
    One step is one load of a shared position, one byte moved by a `memcpy`, or one store of a position;
    the bytes of one `memcpy` may move in any order. Memory is sequentially consistent. */
module SharedRing {
  import opened Basics
  import opened Ring

  /** Where the producer is inside `ringbuf_write`. `free0` is the free space when the call began (history only). */
  datatype Producer =
    | WIdle
    | WEntered(buf: seq<byte>, w: nat, free0: nat)
    | WLoaded(buf: seq<byte>, w: nat, r: nat, free0: nat)
    | WCopying(bytes: seq<byte>, asked: nat, w: nat, second: bool, left: set<nat>, free0: nat)
    | WReturned(n: nat)

  /** Where the consumer is inside `ringbuf_read` or `ringbuf_available_read`.
      `fill0` is the number of unread bytes when the call began (history only). */
  datatype Consumer =
    | RIdle
    | REntered(buf: seq<byte>, count: nat, r: nat, fill0: nat)
    | RLoaded(buf: seq<byte>, count: nat, r: nat, w: nat, fill0: nat)
    | RCopying(n: nat, count: nat, r: nat, second: bool, left: set<nat>, out: seq<byte>, fill0: nat)
    | RReturned(n: nat, out: seq<byte>)
    | ALoaded(w: nat, fill0: nat)
    | AReturned(avail: nat)

  /** `produced` and `consumed` record every byte a finished call reported (history only). */
  datatype State = State(
    size: nat, mem: seq<byte>, writePos: nat, readPos: nat,
    producer: Producer, consumer: Consumer,
    produced: seq<byte>, consumed: seq<byte>)
  {
    ghost predicate WellFormed() {
      && 1 <= size < 0x8000_0000
      && |mem| == size
      && writePos < size
      && readPos < size
      && (producer.WEntered? ==> producer.w < size)
      && (producer.WLoaded? ==> producer.w < size && producer.r < size)
      && (producer.WCopying? ==>
            && producer.w < size
            && |producer.bytes| < size
            && producer.left <= Segment(size, producer.w, |producer.bytes|, producer.second))
      && (consumer.REntered? ==> consumer.r < size && consumer.count <= |consumer.buf|)
      && (consumer.RLoaded? ==> consumer.w < size && consumer.r < size && consumer.count <= |consumer.buf|)
      && (consumer.RCopying? ==>
            && consumer.r < size
            && consumer.n < size
            && consumer.n <= |consumer.out|
            && consumer.left <= Segment(size, consumer.r, consumer.n, consumer.second))
      && (consumer.RReturned? ==> consumer.n <= |consumer.out|)
      && (consumer.ALoaded? ==> consumer.w < size)
    }

    ghost function Queue(): (q: seq<byte>)
      requires WellFormed()
      ensures |q| == Fill(size, writePos, readPos)
    {
      Unread(size, mem, writePos, readPos)
    }

    ghost function Free(): nat
      requires WellFormed()
    {
      Room(size, writePos, readPos)
    }
  }

  /** Offset `i` into the caller's buffer belongs to the first or to the second of the two copies. */
  predicate InSegment(size: nat, pos: nat, n: nat, second: bool, i: nat)
    requires pos < size && n < size
  {
    if second then FirstPart(size, pos, n) <= i < n else i < FirstPart(size, pos, n)
  }

  function Segment(size: nat, pos: nat, n: nat, second: bool): (s: set<nat>)
    requires pos < size && n < size
  {
    set i: nat | i < n && InSegment(size, pos, n, second, i)
  }

  /** The cell that offset `i` goes to: `data + pos` for the first copy, `data` for the second. */
  function Cell(size: nat, pos: nat, n: nat, second: bool, i: nat): (c: nat)
    requires pos < size && n < size && i < n && InSegment(size, pos, n, second, i)
    ensures c == Phys(size, pos, i)
  {
    if second then i - FirstPart(size, pos, n) else pos + i
  }

  /** The offsets already moved. */
  ghost predicate Moved(size: nat, pos: nat, n: nat, second: bool, left: set<nat>, i: nat)
    requires pos < size && n < size
  {
    i < n && i !in left && (second || i < FirstPart(size, pos, n))
  }

  /** The source tests `pos + n >= size` and then whether anything is left for the start of the ring. */
  predicate NeedsSecond(size: nat, pos: nat, n: nat)
    requires pos < size && n < size
  {
    pos + n >= size && n - FirstPart(size, pos, n) > 0
  }

  /** The position stored at the end of a call. */
  function Advance(size: nat, pos: nat, n: nat): (p: nat)
    requires pos < size && n < size
    ensures p == Phys(size, pos, n)
  {
    if pos + n >= size then n - FirstPart(size, pos, n) else pos + n
  }

  datatype Step =
    | BeginWrite(data: seq<byte>)
    | WriteLoadsReadPos
    | WriteClips
    | StoreByte(at: nat)
    | NextStore
    | PublishWrite
    | EndWrite
    | BeginRead(dest: seq<byte>, want: nat)
    | ReadLoadsWritePos
    | ReadClips
    | LoadByte(at: nat)
    | NextLoad
    | PublishRead
    | EndRead
    | BeginAvailable
    | AvailableClips
    | EndAvailable

  predicate IsProducerStep(step: Step) {
    step.BeginWrite? || step.WriteLoadsReadPos? || step.WriteClips? || step.StoreByte?
    || step.NextStore? || step.PublishWrite? || step.EndWrite?
  }

  /** The steps inside a ring call; entering and leaving one is up to the caller. */
  predicate IsInnerStep(step: Step) {
    !(step.BeginWrite? || step.EndWrite? || step.BeginRead? || step.EndRead?
      || step.BeginAvailable? || step.EndAvailable?)
  }

  /** The copies of `ringbuf_write` and the store of `write_pos`. */
  ghost function Storing(s: State, step: Step): (next: Option<State>)
    requires s.WellFormed() && s.producer.WCopying?
    ensures next.Some? ==>
      next.value.WellFormed() && next.value.consumer == s.consumer && next.value.consumed == s.consumed
      && next.value.readPos == s.readPos && next.value.size == s.size
  {
    match (step, s.producer)
    case (StoreByte(i), WCopying(bytes, asked, w, second, left, free0)) =>
      if i in left then
        Some(s.(mem := s.mem[Cell(s.size, w, |bytes|, second, i) := bytes[i]],
                producer := WCopying(bytes, asked, w, second, left - {i}, free0)))
      else None
    case (NextStore, WCopying(bytes, asked, w, second, left, free0)) =>
      if left == {} && !second && NeedsSecond(s.size, w, |bytes|) then
        Some(s.(producer := WCopying(bytes, asked, w, true, Segment(s.size, w, |bytes|, true), free0)))
      else None
    case (PublishWrite, WCopying(bytes, asked, w, second, left, free0)) =>
      if left == {} && (second || !NeedsSecond(s.size, w, |bytes|)) then
        Some(s.(writePos := Advance(s.size, w, |bytes|), producer := WReturned(|bytes|),
                produced := s.produced + bytes))
      else None
    case _ => None
  }

  ghost function ProducerStep(s: State, step: Step): (next: Option<State>)
    requires s.WellFormed()
    ensures next.Some? ==>
      next.value.WellFormed() && next.value.consumer == s.consumer && next.value.consumed == s.consumed
      && next.value.readPos == s.readPos && next.value.size == s.size
  {
    match (step, s.producer)
    case (BeginWrite(data), WIdle) =>
      Some(s.(producer := WEntered(data, s.writePos, s.Free())))
    case (WriteLoadsReadPos, WEntered(buf, w, free0)) =>
      Some(s.(producer := WLoaded(buf, w, s.readPos, free0)))
    case (WriteClips, WLoaded(buf, w, r, free0)) =>
      var n := Min(|buf|, Room(s.size, s.writePos, r));
      Some(s.(producer := WCopying(buf[..n], |buf|, w, false, Segment(s.size, w, n, false), free0)))
    case (_, WCopying(_, _, _, _, _, _)) => Storing(s, step)
    case (EndWrite, WReturned(_)) =>
      Some(s.(producer := WIdle))
    case _ => None
  }

  /** The copies of `ringbuf_read` and the store of `read_pos`. */
  ghost function Loading(s: State, step: Step): (next: Option<State>)
    requires s.WellFormed() && s.consumer.RCopying?
    ensures next.Some? ==>
      next.value.WellFormed() && next.value.producer == s.producer && next.value.produced == s.produced
      && next.value.writePos == s.writePos && next.value.mem == s.mem && next.value.size == s.size
  {
    match (step, s.consumer)
    case (LoadByte(i), RCopying(n, count, r, second, left, out, fill0)) =>
      if i in left then
        Some(s.(consumer := RCopying(n, count, r, second, left - {i},
                                     out[i := s.mem[Cell(s.size, r, n, second, i)]], fill0)))
      else None
    case (NextLoad, RCopying(n, count, r, second, left, out, fill0)) =>
      if left == {} && !second && NeedsSecond(s.size, r, n) then
        Some(s.(consumer := RCopying(n, count, r, true, Segment(s.size, r, n, true), out, fill0)))
      else None
    case (PublishRead, RCopying(n, count, r, second, left, out, fill0)) =>
      if left == {} && (second || !NeedsSecond(s.size, r, n)) then
        Some(s.(readPos := Advance(s.size, r, n), consumer := RReturned(n, out),
                consumed := s.consumed + out[..n]))
      else None
    case _ => None
  }

  ghost function ConsumerStep(s: State, step: Step): (next: Option<State>)
    requires s.WellFormed()
    ensures next.Some? ==>
      next.value.WellFormed() && next.value.producer == s.producer && next.value.produced == s.produced
      && next.value.writePos == s.writePos && next.value.mem == s.mem && next.value.size == s.size
  {
    match (step, s.consumer)
    case (BeginRead(dest, want), RIdle) =>
      if want <= |dest| then
        Some(s.(consumer := REntered(dest, want, s.readPos, |s.Queue()|)))
      else None
    case (ReadLoadsWritePos, REntered(buf, count, r, fill0)) =>
      Some(s.(consumer := RLoaded(buf, count, r, s.writePos, fill0)))
    case (ReadClips, RLoaded(buf, count, r, w, fill0)) =>
      var n := Min(count, Fill(s.size, w, s.readPos));
      Some(s.(consumer := RCopying(n, count, r, false, Segment(s.size, r, n, false), buf, fill0)))
    case (_, RCopying(_, _, _, _, _, _, _)) => Loading(s, step)
    case (EndRead, RReturned(_, _)) =>
      Some(s.(consumer := RIdle))
    case (BeginAvailable, RIdle) =>
      Some(s.(consumer := ALoaded(s.writePos, |s.Queue()|)))
    case (AvailableClips, ALoaded(w, fill0)) =>
      Some(s.(consumer := AReturned(Fill(s.size, w, s.readPos))))
    case (EndAvailable, AReturned(_)) =>
      Some(s.(consumer := RIdle))
    case _ => None
  }

  ghost function Apply(s: State, step: Step): (next: Option<State>)
    requires s.WellFormed()
    ensures next.Some? ==> next.value.WellFormed()
  {
    if IsProducerStep(step) then ProducerStep(s, step) else ConsumerStep(s, step)
  }
}
