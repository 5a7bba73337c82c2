/** What every interleaving of one producer and one consumer keeps. */
module SharedRingSafety {
  import opened Basics
  import opened Ring
  import opened SharedRing

  /** The producer's stale view is safe: the room it computed never exceeds the true free space. */
  ghost predicate ProducerInv(s: State)
    requires s.WellFormed()
  {
    match s.producer
    case WEntered(buf, w, free0) => w == s.writePos && free0 <= s.Free()
    case WLoaded(buf, w, r, free0) => w == s.writePos && free0 <= Room(s.size, w, r) <= s.Free()
    case WCopying(bytes, asked, w, second, left, free0) =>
      && w == s.writePos
      && Min(asked, free0) <= |bytes| <= asked
      && |bytes| <= s.Free()
      && free0 <= s.Free()
      && forall i: nat :: i < |bytes| && Moved(s.size, w, |bytes|, second, left, i) ==>
           s.mem[Phys(s.size, w, i)] == bytes[i]
    case _ => true
  }

  /** The consumer's stale view is safe, and what it has copied are the oldest unread bytes. */
  ghost predicate ConsumerInv(s: State)
    requires s.WellFormed()
  {
    match s.consumer
    case REntered(buf, count, r, fill0) => r == s.readPos && fill0 <= |s.Queue()|
    case RLoaded(buf, count, r, w, fill0) =>
      r == s.readPos && fill0 <= Fill(s.size, w, r) <= |s.Queue()|
    case RCopying(n, count, r, second, left, out, fill0) =>
      && r == s.readPos
      && Min(count, fill0) <= n <= count
      && n <= |s.Queue()|
      && fill0 <= |s.Queue()|
      && forall i: nat :: i < n && Moved(s.size, r, n, second, left, i) ==> out[i] == s.Queue()[i]
    case ALoaded(w, fill0) => fill0 <= Fill(s.size, w, s.readPos) <= |s.Queue()|
    case AReturned(avail) => avail <= |s.Queue()|
    case _ => true
  }

  /** The bytes handed out and the bytes still in memory are, in order, the bytes handed in. */
  ghost predicate Inv(s: State) {
    && s.WellFormed()
    && s.produced == s.consumed + s.Queue()
    && ProducerInv(s)
    && ConsumerInv(s)
  }

  /** Both sides have called `ringbuf_init` and neither has started a call. */
  ghost predicate Init(s: State) {
    && s.WellFormed()
    && s.writePos == s.readPos == 0
    && s.producer == WIdle
    && s.consumer == RIdle
    && s.produced == s.consumed == []
  }

  /** Free cells, and the one that always stays empty, are not cells of unread bytes. */
  lemma RegionsDisjoint(s: State, i: nat, j: nat)
    requires s.WellFormed()
    requires i < s.Free() + 1 && j < |s.Queue()|
    ensures Phys(s.size, s.writePos, i) != Phys(s.size, s.readPos, j)
  {
  }

  lemma StoreKeepsInv(s: State, step: Step)
    requires Inv(s) && step.StoreByte? && ProducerStep(s, step).Some?
    ensures Inv(ProducerStep(s, step).value)
  {
    var t := ProducerStep(s, step).value;
    var p := s.producer;
    var n := |p.bytes|;
    forall j: nat | j < |s.Queue()|
      ensures t.Queue()[j] == s.Queue()[j]
    {
      RegionsDisjoint(s, step.at, j);
    }
    assert t.Queue() == s.Queue();
    forall i: nat | i < n && Moved(s.size, p.w, n, p.second, t.producer.left, i)
      ensures t.mem[Phys(s.size, p.w, i)] == p.bytes[i]
    {
      if i != step.at {
        assert Moved(s.size, p.w, n, p.second, p.left, i);
        assert Phys(s.size, p.w, i) != Phys(s.size, p.w, step.at);
      }
    }
  }

  /** When both copies are complete every cell of the write holds its byte. */
  lemma PublishKeepsInv(s: State, step: Step)
    requires Inv(s) && step.PublishWrite? && ProducerStep(s, step).Some?
    ensures Inv(ProducerStep(s, step).value)
    ensures ProducerStep(s, step).value.Queue() == s.Queue() + s.producer.bytes
    ensures ProducerStep(s, step).value.Free() == s.Free() - |s.producer.bytes|
  {
    var t := ProducerStep(s, step).value;
    var p := s.producer;
    var n := |p.bytes|;
    forall i: nat | i < n
      ensures s.mem[Phys(s.size, p.w, i)] == p.bytes[i]
    {
      assert Moved(s.size, p.w, n, p.second, p.left, i);
    }
    MovingWriteAppends(s.size, s.mem, s.writePos, s.readPos, p.bytes);
    assert t.Queue() == s.Queue() + p.bytes;
    assert forall i: nat :: i < |s.Queue()| ==> t.Queue()[i] == s.Queue()[i];
  }

  lemma ProducerKeepsInv(s: State, step: Step)
    requires Inv(s) && ProducerStep(s, step).Some?
    ensures Inv(ProducerStep(s, step).value)
  {
    if step.StoreByte? {
      StoreKeepsInv(s, step);
    } else if step.PublishWrite? {
      PublishKeepsInv(s, step);
    }
  }

  lemma PublishReadKeepsInv(s: State, step: Step)
    requires Inv(s) && step.PublishRead? && ConsumerStep(s, step).Some?
    ensures Inv(ConsumerStep(s, step).value)
    ensures s.consumer.out[..s.consumer.n] == s.Queue()[..s.consumer.n]
  {
    var c := s.consumer;
    forall i: nat | i < c.n
      ensures c.out[i] == s.Queue()[i]
    {
      assert Moved(s.size, c.r, c.n, c.second, c.left, i);
    }
    assert c.out[..c.n] == s.Queue()[..c.n];
    ReadTakes(s.size, s.mem, s.writePos, s.readPos, c.n);
    var q := s.Queue();
    assert q == q[..c.n] + q[c.n..];
    Assoc(s.consumed, q[..c.n], q[c.n..]);
  }

  lemma LoadKeepsInv(s: State, step: Step)
    requires Inv(s) && step.LoadByte? && ConsumerStep(s, step).Some?
    ensures Inv(ConsumerStep(s, step).value)
  {
  }

  lemma ConsumerKeepsInv(s: State, step: Step)
    requires Inv(s) && ConsumerStep(s, step).Some?
    ensures Inv(ConsumerStep(s, step).value)
  {
    if step.LoadByte? {
      LoadKeepsInv(s, step);
    } else if step.PublishRead? {
      PublishReadKeepsInv(s, step);
    }
  }

  /** Neither side can take anything away from the other. */
  lemma FillAndFreeOnlyGrow(s: State, step: Step)
    requires Inv(s)
    ensures ProducerStep(s, step).Some? ==> |s.Queue()| <= |ProducerStep(s, step).value.Queue()|
    ensures ConsumerStep(s, step).Some? ==> s.Free() <= ConsumerStep(s, step).value.Free()
  {
    if step.PublishWrite? && ProducerStep(s, step).Some? {
      PublishKeepsInv(s, step);
    }
  }

  lemma StepKeepsInv(s: State, step: Step)
    requires Inv(s) && Apply(s, step).Some?
    ensures Inv(Apply(s, step).value)
  {
    if IsProducerStep(step) {
      ProducerKeepsInv(s, step);
    } else {
      ConsumerKeepsInv(s, step);
    }
  }

  /** The state after `steps`, if each of them was possible. */
  ghost function Run(s: State, steps: seq<Step>): (end: Option<State>)
    requires s.WellFormed()
    ensures end.Some? ==> end.value.WellFormed()
    decreases |steps|
  {
    if steps == [] then Some(s)
    else
      match Apply(s, steps[0])
      case None => None
      case Some(t) => Run(t, steps[1..])
  }

  lemma {:induction false} RunKeepsInv(s: State, steps: seq<Step>)
    requires Inv(s) && Run(s, steps).Some?
    ensures Inv(Run(s, steps).value)
    decreases |steps|
  {
    if steps != [] {
      StepKeepsInv(s, steps[0]);
      RunKeepsInv(Apply(s, steps[0]).value, steps[1..]);
    }
  }

  /** With both sides copying at once, no cell that still has to be stored, and none that has been stored already, is a
      cell that still has to be loaded or holds any other unread byte. */
  lemma CopiesNeverMeet(start: State, steps: seq<Step>)
    requires Init(start) && Run(start, steps).Some?
    ensures var s := Run(start, steps).value;
      && (s.producer.WCopying? ==> forall i: nat, j: nat :: i < |s.producer.bytes| && j < |s.Queue()| ==>
            Phys(s.size, s.producer.w, i) != Phys(s.size, s.readPos, j))
      && (s.producer.WCopying? && s.consumer.RCopying? ==>
            forall i, j :: i in s.producer.left && j in s.consumer.left ==>
              Cell(s.size, s.producer.w, |s.producer.bytes|, s.producer.second, i)
              != Cell(s.size, s.consumer.r, s.consumer.n, s.consumer.second, j))
  {
    assert start.produced == start.consumed + start.Queue();
    RunKeepsInv(start, steps);
    var s := Run(start, steps).value;
    if s.producer.WCopying? {
      forall i: nat, j: nat | i < |s.producer.bytes| && j < |s.Queue()|
        ensures Phys(s.size, s.producer.w, i) != Phys(s.size, s.readPos, j)
      {
        RegionsDisjoint(s, i, j);
      }
    }
  }

  /** FIFO: however the two calls interleave, the bytes read are a prefix of the bytes written,
      and the rest is in the ring. */
  lemma FifoForAllInterleavings(start: State, steps: seq<Step>)
    requires Init(start) && Run(start, steps).Some?
    ensures var s := Run(start, steps).value;
      && IsPrefix(s.consumed, s.produced)
      && s.produced[|s.consumed|..] == s.Queue()
      && |s.produced| - |s.consumed| <= s.size - 1
  {
    assert start.produced == start.consumed + start.Queue();
    RunKeepsInv(start, steps);
  }
}
