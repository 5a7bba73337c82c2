/** A ring call in progress can always be finished by its own side alone, while the other side does nothing. The runs
    built here are the ingredients of the runs that show what can go wrong. */
module RingSolo {
  import opened Basics
  import opened Ring
  import opened SharedRing
  import opened SharedRingSafety

  lemma {:induction false} RunConcat(s: State, a: seq<Step>, b: seq<Step>)
    requires s.WellFormed() && Run(s, a).Some?
    ensures Run(s, a + b) == Run(Run(s, a).value, b)
    decreases |a|
  {
    if a == [] {
      assert a + b == b;
    } else {
      assert (a + b)[1..] == a[1..] + b;
      RunConcat(Apply(s, a[0]).value, a[1..], b);
    }
  }

  lemma RunOne(s: State, step: Step)
    requires s.WellFormed()
    ensures Run(s, [step]) == Apply(s, step)
  {
  }

  /** The call in progress is `ringbuf_write` of `buf`, and has not yet published. */
  ghost predicate Writing(p: Producer, buf: seq<byte>) {
    match p
    case WEntered(b, _, _) => b == buf
    case WLoaded(b, _, _, _) => b == buf
    case WCopying(bytes, asked, _, _, _, _) => asked == |buf| && |bytes| <= |buf| && bytes == buf[..|bytes|]
    case _ => false
  }

  /** The call in progress is `ringbuf_read` of `want` bytes, and has not yet published. */
  ghost predicate Reading(c: Consumer, want: nat) {
    match c
    case REntered(_, count, _, _) => count == want
    case RLoaded(_, count, _, _, _) => count == want
    case RCopying(_, count, _, _, _, _, _) => count == want
    case _ => false
  }

  ghost predicate IsSolo(steps: seq<Step>, producer: bool) {
    forall step :: step in steps ==> IsInnerStep(step) && IsProducerStep(step) == producer
  }

  /** What a call still has to do; the set of bytes left to copy decides between equals. */
  function WriteStage(p: Producer): nat {
    if p.WEntered? then 4 else if p.WLoaded? then 3 else if p.WCopying? && !p.second then 2 else 1
  }

  function WriteLeft(p: Producer): set<nat> {
    if p.WCopying? then p.left else {}
  }

  function ReadStage(c: Consumer): nat {
    if c.REntered? then 4 else if c.RLoaded? then 3 else if c.RCopying? && !c.second then 2 else 1
  }

  function ReadLeft(c: Consumer): set<nat> {
    if c.RCopying? then c.left else {}
  }

  /** The next step of a write. */
  lemma WriteStep(s: State, buf: seq<byte>) returns (step: Step)
    requires Inv(s) && Writing(s.producer, buf)
    ensures IsInnerStep(step) && IsProducerStep(step) && Apply(s, step).Some?
    ensures var t := Apply(s, step).value;
      && (step != PublishWrite ==>
            && Writing(t.producer, buf) && t.producer.free0 == s.producer.free0 && t.produced == s.produced
            && (WriteStage(t.producer) < WriteStage(s.producer)
                || (WriteStage(t.producer) == WriteStage(s.producer) && WriteLeft(t.producer) < WriteLeft(s.producer))))
      && (step == PublishWrite ==>
            && t.producer.WReturned? && t.producer.n <= |buf| && Min(|buf|, s.producer.free0) <= t.producer.n
            && t.produced == s.produced + buf[..t.producer.n])
  {
    step := PublishWrite;
    match s.producer {
      case WEntered(_, _, _) => step := WriteLoadsReadPos;
      case WLoaded(_, _, _, _) => step := WriteClips;
      case WCopying(bytes, _, w, second, left, _) =>
        if left != {} {
          var i :| i in left;
          step := StoreByte(i);
        } else if !second && NeedsSecond(s.size, w, |bytes|) {
          step := NextStore;
        }
    }
  }

  /** A write finishes: it publishes a prefix of its buffer, no shorter than what was free when it began. */
  lemma {:induction false} FinishWrite(s: State, buf: seq<byte>) returns (steps: seq<Step>)
    requires Inv(s) && Writing(s.producer, buf)
    ensures IsSolo(steps, true) && Run(s, steps).Some?
    ensures var t := Run(s, steps).value;
      && Inv(t) && t.consumer == s.consumer && t.consumed == s.consumed && t.readPos == s.readPos && t.size == s.size
      && t.producer.WReturned? && Min(|buf|, s.producer.free0) <= t.producer.n <= |buf|
      && t.produced == s.produced + buf[..t.producer.n]
    decreases WriteStage(s.producer), WriteLeft(s.producer)
  {
    var step := WriteStep(s, buf);
    var t := Apply(s, step).value;
    ProducerKeepsInv(s, step);
    RunOne(s, step);
    steps := [step];
    if step != PublishWrite {
      var more := FinishWrite(t, buf);
      RunConcat(s, [step], more);
      steps := [step] + more;
    }
  }

  /** A whole `ringbuf_write` while nobody reads: it appends what fits. */
  lemma WriteAlone(s: State, buf: seq<byte>) returns (steps: seq<Step>)
    requires Inv(s) && s.producer == WIdle
    ensures Run(s, steps).Some? && forall step :: step in steps ==> IsProducerStep(step)
    ensures var t, n := Run(s, steps).value, Min(|buf|, s.Free());
      && Inv(t) && t.producer == WIdle && t.consumer == s.consumer && t.consumed == s.consumed && t.size == s.size
      && t.produced == s.produced + buf[..n]
      && |t.Queue()| == |s.Queue()| + n
  {
    var begun := Apply(s, BeginWrite(buf)).value;
    ProducerKeepsInv(s, BeginWrite(buf));
    RunOne(s, BeginWrite(buf));
    var inner := FinishWrite(begun, buf);
    var written := Run(begun, inner).value;
    ProducerKeepsInv(written, EndWrite);
    RunOne(written, EndWrite);
    RunConcat(s, [BeginWrite(buf)], inner);
    RunConcat(s, [BeginWrite(buf)] + inner, [EndWrite]);
    steps := [BeginWrite(buf)] + inner + [EndWrite];
    var t := Run(s, steps).value;
    FillPlusRoom(s.size, s.writePos, s.readPos);
    FillPlusRoom(t.size, t.writePos, t.readPos);
  }

  /** The next step of a read. */
  lemma ReadStep(s: State, want: nat) returns (step: Step)
    requires Inv(s) && Reading(s.consumer, want)
    ensures IsInnerStep(step) && !IsProducerStep(step) && Apply(s, step).Some?
    ensures var t := Apply(s, step).value;
      && (step != PublishRead ==>
            && Reading(t.consumer, want) && t.consumer.fill0 == s.consumer.fill0 && t.consumed == s.consumed
            && (ReadStage(t.consumer) < ReadStage(s.consumer)
                || (ReadStage(t.consumer) == ReadStage(s.consumer) && ReadLeft(t.consumer) < ReadLeft(s.consumer))))
      && (step == PublishRead ==>
            && t.consumer.RReturned? && Min(want, s.consumer.fill0) <= t.consumer.n <= want
            && t.consumed == s.consumed + t.consumer.out[..t.consumer.n])
  {
    step := PublishRead;
    match s.consumer {
      case REntered(_, _, _, _) => step := ReadLoadsWritePos;
      case RLoaded(_, _, _, _, _) => step := ReadClips;
      case RCopying(n, _, r, second, left, _, _) =>
        if left != {} {
          var i :| i in left;
          step := LoadByte(i);
        } else if !second && NeedsSecond(s.size, r, n) {
          step := NextLoad;
        }
    }
  }

  /** A read finishes: it takes no fewer bytes than were there when it began, up to what it wants. */
  lemma {:induction false} FinishRead(s: State, want: nat) returns (steps: seq<Step>)
    requires Inv(s) && Reading(s.consumer, want)
    ensures IsSolo(steps, false) && Run(s, steps).Some?
    ensures var t := Run(s, steps).value;
      && Inv(t) && t.producer == s.producer && t.produced == s.produced && t.writePos == s.writePos && t.size == s.size
      && t.consumer.RReturned? && Min(want, s.consumer.fill0) <= t.consumer.n <= want
      && t.consumed == s.consumed + t.consumer.out[..t.consumer.n]
    decreases ReadStage(s.consumer), ReadLeft(s.consumer)
  {
    var step := ReadStep(s, want);
    var t := Apply(s, step).value;
    ConsumerKeepsInv(s, step);
    RunOne(s, step);
    steps := [step];
    if step != PublishRead {
      var more := FinishRead(t, want);
      RunConcat(s, [step], more);
      steps := [step] + more;
    }
  }

  /** A whole `ringbuf_read` while nobody writes: it takes what is there. */
  lemma ReadAlone(s: State, want: nat, dest: seq<byte>) returns (steps: seq<Step>)
    requires Inv(s) && s.consumer == RIdle && want <= |dest|
    ensures Run(s, steps).Some? && forall step :: step in steps ==> !IsProducerStep(step)
    ensures var t, n := Run(s, steps).value, Min(want, |s.Queue()|);
      && Inv(t) && t.consumer == RIdle && t.producer == s.producer && t.produced == s.produced && t.size == s.size
      && |t.consumed| == |s.consumed| + n && |t.Queue()| == |s.Queue()| - n
  {
    var begun := Apply(s, BeginRead(dest, want)).value;
    ConsumerKeepsInv(s, BeginRead(dest, want));
    RunOne(s, BeginRead(dest, want));
    var inner := FinishRead(begun, want);
    var taken := Run(begun, inner).value;
    ConsumerKeepsInv(taken, EndRead);
    RunOne(taken, EndRead);
    RunConcat(s, [BeginRead(dest, want)], inner);
    RunConcat(s, [BeginRead(dest, want)] + inner, [EndRead]);
    steps := [BeginRead(dest, want)] + inner + [EndRead];
  }
}
