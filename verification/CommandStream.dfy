/** `command_process` as a stream parser: how the bytes arrive and when the ticks happen does not matter. */
module CommandStream {
  import opened Basics
  import opened Frames
  import opened Command

  /** A stretch of a run: bytes arrive in the ring, or one tick runs. */
  datatype Event = Arrive(bytes: seq<byte>) | TickRuns(taken: nat, outcome: Outcome, partial: seq<byte>)

  datatype Progress = Progress(partial: seq<byte>, waiting: seq<byte>, dispatched: seq<Frame>, received: seq<byte>)

  /** `events` can happen from `p`, every tick ending as `TickSpec` says and none failing its assertion. */
  ghost predicate Possible(p: Progress, events: seq<Event>)
    decreases |events|
  {
    events == [] ||
    match events[0]
    case Arrive(_) => Possible(After(p, events[0]), events[1..])
    case TickRuns(taken, outcome, partial) =>
      && TickSpec(p.partial, p.waiting, taken, outcome, partial)
      && !outcome.AssertFailed?
      && Possible(After(p, events[0]), events[1..])
  }

  ghost function After(p: Progress, e: Event): Progress {
    match e
    case Arrive(bytes) => p.(waiting := p.waiting + bytes, received := p.received + bytes)
    case TickRuns(taken, outcome, partial) =>
      p.(partial := partial, waiting := if taken <= |p.waiting| then p.waiting[taken..] else [],
         dispatched := p.dispatched + (if outcome.Dispatched? then [outcome.frame] else []))
  }

  ghost function AfterAll(p: Progress, events: seq<Event>): Progress
    decreases |events|
  {
    if events == [] then p else AfterAll(After(p, events[0]), events[1..])
  }

  /** No byte is lost, duplicated or reordered between arrival and dispatch. */
  ghost predicate Accounted(p: Progress) {
    && EncodeAll(p.dispatched) + (p.partial + p.waiting) == p.received
    && !HasFrame(p.partial)
  }

  lemma TickKeepsAccount(p: Progress, e: Event)
    requires Accounted(p) && e.TickRuns? && !e.outcome.AssertFailed?
    requires TickSpec(p.partial, p.waiting, e.taken, e.outcome, e.partial)
    ensures Accounted(After(p, e))
  {
    var (taken, rest) := (p.waiting[..e.taken], p.waiting[e.taken..]);
    assert p.waiting == taken + rest;
    Assoc(p.partial, taken, rest);
    if e.outcome.Dispatched? {
      EncodeAllSnoc(p.dispatched, e.outcome.frame);
      Assoc(EncodeAll(p.dispatched), Encode(e.outcome.frame), rest);
      assert [] + rest == rest;
    } else {
      assert p.dispatched + [] == p.dispatched;
      assert e.partial + rest == p.partial + p.waiting;
    }
  }

  lemma {:induction false} RunKeepsAccount(p: Progress, events: seq<Event>)
    requires Accounted(p) && Possible(p, events)
    ensures Accounted(AfterAll(p, events))
    decreases |events|
  {
    if events != [] {
      if events[0].Arrive? {
        Assoc(p.partial, p.waiting, events[0].bytes);
        Assoc(EncodeAll(p.dispatched), p.partial + p.waiting, events[0].bytes);
      } else {
        TickKeepsAccount(p, events[0]);
      }
      RunKeepsAccount(After(p, events[0]), events[1..]);
    }
  }

  /** Whatever the fragmentation, the frames dispatched are the first frames of the reference parse of everything
      received; when the ring has been drained they are all of them, and the rest is what is in assembly. */
  lemma FragmentationDoesNotMatter(events: seq<Event>)
    requires Possible(Progress([], [], [], []), events)
    ensures var p := AfterAll(Progress([], [], [], []), events);
      && IsPrefix(p.dispatched, Parse(p.received).frames)
      && (p.waiting == [] ==> Parse(p.received) == Parsed(p.dispatched, p.partial))
  {
    var p := AfterAll(Progress([], [], [], []), events);
    RunKeepsAccount(Progress([], [], [], []), events);
    ParseThenEncode(p.partial + p.waiting);
    var q := Parse(p.partial + p.waiting);
    EncodeAllAppend(p.dispatched, q.frames);
    Assoc(EncodeAll(p.dispatched), EncodeAll(q.frames), q.rest);
    EncodeThenParse(p.dispatched + q.frames, q.rest);
    if p.waiting == [] {
      assert p.partial + p.waiting == p.partial;
      assert p.dispatched + [] == p.dispatched;
    }
  }

  /** A tick is fully determined by what was assembled and what is waiting, and it never passes over a frame. */
  lemma TickIsDetermined(p: seq<byte>, q: seq<byte>, k: nat, o: Outcome, p': seq<byte>, l: nat, u: Outcome, p'': seq<byte>)
    requires !HasFrame(p)
    requires TickSpec(p, q, k, o, p') && TickSpec(p, q, l, u, p'')
    ensures k == l && o == u
    ensures !o.AssertFailed? ==> p' == p''
  {
    if o.Dispatched? || o.AssertFailed? {
      FrameAt(p, q, k, o.frame);
      if u.Dispatched? || u.AssertFailed? {
        FrameAt(p, q, l, u.frame);
      }
    } else if u.Dispatched? || u.AssertFailed? {
      FrameAt(p, q, l, u.frame);
    }
  }

  /** A frame that ends inside `q` is the one that `p + q` starts with. */
  lemma FrameAt(p: seq<byte>, q: seq<byte>, k: nat, f: Frame)
    requires 1 <= k <= |q| && p + q[..k] == Encode(f)
    ensures HasFrame(p + q) && FirstFrame(p + q) == f && |p| + k == FrameSize(p + q)
  {
    var s := p + q;
    assert s[..|p| + k] == Encode(f);
    assert s[0] == Encode(f)[0] && s[1] == Encode(f)[1];
    assert s[2..|p| + k] == Encode(f)[2..] == f.payload;
  }

  /** While the host does not read, what a reply appends is a whole frame exactly when the ring has room for all of it.
      ReplyLoss.dfy has the case of a host that reads meanwhile. */
  lemma ReplyIsWholeIffItFits(f: Frame, room: nat)
    ensures HasFrame(Fitting(Encode(f), room)) <==> room >= |f.payload| + 2
    ensures room >= |f.payload| + 2 ==> Parse(Fitting(Encode(f), room)) == Parsed([f], [])
  {
    var sent := Fitting(Encode(f), room);
    if room >= |f.payload| + 2 {
      assert sent == Encode(f);
      assert EncodeAll([f]) + [] == Encode(f);
      EncodeThenParse([f], []);
    }
  }

  /** One tick with nothing arriving: it dispatches the next frame if all of it is there, and otherwise leaves nothing
      in the ring. */
  lemma TickTakesNextFrame(p: Progress, e: Event)
    requires !HasFrame(p.partial) && Possible(p, [e]) && e.TickRuns?
    ensures var all, q := p.partial + p.waiting, After(p, e);
      && !HasFrame(q.partial)
      && if HasFrame(all) then
           q.dispatched == p.dispatched + [FirstFrame(all)] && q.partial + q.waiting == all[FrameSize(all)..]
         else
           q.dispatched == p.dispatched && q.partial + q.waiting == all && q.waiting == []
  {
    var all := p.partial + p.waiting;
    if e.outcome.Dispatched? {
      FrameAt(p.partial, p.waiting, e.taken, e.outcome.frame);
      assert all == (p.partial + p.waiting[..e.taken]) + p.waiting[e.taken..];
      assert [] + p.waiting[e.taken..] == all[FrameSize(all)..];
    } else {
      assert p.dispatched + [] == p.dispatched;
      assert p.waiting == [] ==> all == p.partial;
    }
  }

  /** Draining is steady and ends: while nothing arrives, `n` ticks dispatch the next `n` whole frames in order, and
      one tick more than there are whole frames leaves the ring empty. */
  lemma {:induction false} EachTickDispatchesOne(p: Progress, events: seq<Event>)
    requires !HasFrame(p.partial) && Possible(p, events)
    requires forall e :: e in events ==> e.TickRuns?
    ensures var q, due := AfterAll(p, events), Parse(p.partial + p.waiting).frames;
      && q.dispatched == p.dispatched + due[..Min(|events|, |due|)]
      && (|events| > |due| ==> q.waiting == [])
    decreases |events|
  {
    var all := p.partial + p.waiting;
    if events == [] {
      assert p.dispatched + [] == p.dispatched;
    } else {
      var e := events[0];
      var q := After(p, e);
      assert Possible(p, [e]) by {
        assert [e][1..] == [];
      }
      TickTakesNextFrame(p, e);
      EachTickDispatchesOne(q, events[1..]);
      var due, later := Parse(all).frames, Parse(q.partial + q.waiting).frames;
      if HasFrame(all) {
        assert due == [FirstFrame(all)] + later;
        assert due[..Min(|events|, |due|)] == [FirstFrame(all)] + later[..Min(|events| - 1, |later|)];
        Assoc(p.dispatched, [FirstFrame(all)], later[..Min(|events| - 1, |later|)]);
      } else {
        assert due == [] && later == [];
      }
    }
  }

  /** A tick that finds exactly one frame dispatches it. */
  lemma FirstTick(input: seq<byte>, taken: nat, outcome: Outcome, partial: seq<byte>, f: Frame)
    requires TickSpec([], input, taken, outcome, partial) && input == Encode(f) && f.cmd < 128
    ensures outcome == Dispatched(f) && taken == |input|
  {
    assert [] + input == input && input[..|input|] == input;
    FrameAt([], input, |input|, f);
    if outcome.Dispatched? || outcome.AssertFailed? {
      FrameAt([], input, taken, outcome.frame);
    }
  }

  /** The first command after `command_init`, when the host has written all of it: it is dispatched in one tick, 'c'
      connects, and the host is answered with the same letter, or with 'e' for any other command, as none of the other
      files has registered a handler yet. */
  method AnswerFirst(tx: nat, rx: nat, f: Frame, junk: byte) returns (p: CommandProcessor, outcome: Outcome)
    requires 8 + 3 <= tx < 0x8000_0000 && 8 + |f.payload| + 3 <= rx < 0x8000_0000 && f.cmd < 128
    ensures outcome == Dispatched(f) && p.Valid() && p.rbRx.Contents() == []
    ensures p.connected <==> f.cmd == 'c' as int
    ensures p.rbTx.Contents() ==
      if f.cmd == 'c' as int then [0, 'c' as int] else if f.cmd == 'd' as int then [0, 'd' as int] else [0, 'e' as int]
  {
    p := new CommandProcessor(tx, rx);
    var b := Encode(f);
    var n := p.rbRx.Write(b, |b|);
    ghost var taken;
    outcome, taken := p.CommandProcess(junk);
    hide Encode;
    FirstTick(b[..n], taken, outcome, p.Partial(), f);
  }
}
