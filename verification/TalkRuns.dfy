/** What the servers and clients of Talk.dfy keep over whole runs. */
module TalkRuns {
  import opened Basics
  import opened Talk

  /** Serving a deque pops its packets in order, up to and including the first unknown one. */
  lemma {:induction false} ServeFollowsParse(b: seq<byte>)
    ensures var s := Serve(b);
      && Packets(b) == s.popped + Packets(s.rest)
      && Rest(b) == Rest(s.rest)
      && (!s.raised ==> !HasPacket(s.rest) && forall p :: p in s.popped ==> Known(p))
      && (s.raised ==> s.popped != [] && !Known(s.popped[|s.popped| - 1])
                       && forall p :: p in s.popped[..|s.popped| - 1] ==> Known(p))
    decreases |b|
  {
    if HasPacket(b) && Known(b[..PacketSize(b)]) {
      var k := PacketSize(b);
      ServeFollowsParse(b[k..]);
      var t := Serve(b[k..]);
      Assoc([b[..k]], t.popped, Packets(t.rest));
      if t.raised {
        assert ([b[..k]] + t.popped)[..|t.popped|] == [b[..k]] + t.popped[..|t.popped| - 1];
      }
    }
  }

  lemma KnownInBytes(p: seq<byte>)
    ensures Known(p) <==> [0xA0] <= p || [0xB0] <= p
  {
  }

  /** The packets that begin with one of two bytes, in order. */
  function StartingWith(packets: seq<seq<byte>>, a: byte, b: byte): seq<seq<byte>> {
    if packets == [] then []
    else (if [a] <= packets[0] || [b] <= packets[0] then [packets[0]] else []) + StartingWith(packets[1..], a, b)
  }

  /** The packets a callback was fired with on connection `i`, in order. */
  function PacketsFor(calls: seq<Call>, i: nat): seq<seq<byte>> {
    if calls == [] then []
    else (if calls[0].conn == i then [calls[0].packet] else []) + PacketsFor(calls[1..], i)
  }

  lemma {:induction false} StartingWithAppend(a: seq<seq<byte>>, b: seq<seq<byte>>)
    ensures StartingWith(a + b, 0xA0, 0xB0) == StartingWith(a, 0xA0, 0xB0) + StartingWith(b, 0xA0, 0xB0)
  {
    if a == [] {
      assert a + b == b;
    } else {
      assert (a + b)[1..] == a[1..] + b;
      StartingWithAppend(a[1..], b);
    }
  }

  lemma {:induction false} PacketsForAppend(a: seq<Call>, b: seq<Call>, i: nat)
    ensures PacketsFor(a + b, i) == PacketsFor(a, i) + PacketsFor(b, i)
  {
    if a == [] {
      assert a + b == b;
    } else {
      assert (a + b)[1..] == a[1..] + b;
      PacketsForAppend(a[1..], b, i);
    }
  }

  lemma {:induction false} CallsAreFor(conn: nat, packets: seq<seq<byte>>, i: nat)
    ensures PacketsFor(Calls(conn, packets), i) == if i == conn then StartingWith(packets, 0xA0, 0xB0) else []
  {
    if packets != [] {
      var first := if Known(packets[0]) then [CallFor(conn, packets[0])] else [];
      assert first != [] ==> first[1..] == [];
      PacketsForAppend(first, Calls(conn, packets[1..]), i);
      CallsAreFor(conn, packets[1..], i);
    }
  }

  /** No connection before `i` ends the round. */
  predicate Reaches(buffs: seq<seq<byte>>, data: seq<Option<seq<byte>>>, from: nat, i: nat)
    requires |data| == |buffs| && i < |buffs|
  {
    forall j :: from <= j < i && data[j].Some? ==> !Serve(buffs[j] + data[j].value).raised
  }

  /** What a round reads on connection `i`: nothing if an earlier connection raises. */
  function ReadOn(buffs: seq<seq<byte>>, data: seq<Option<seq<byte>>>, from: nat, i: nat): Option<seq<byte>>
    requires |data| == |buffs| && i < |buffs|
  {
    if from <= i && Reaches(buffs, data, from, i) then data[i] else None
  }

  /** What a round that starts at connection `from` has done to connection `i`, which read `read`. */
  predicate ServedAlone(r: Round, buff: seq<byte>, read: Option<seq<byte>>, i: nat)
    requires i < |r.buffs|
  {
    match read
    case None => r.buffs[i] == buff && PacketsFor(r.calls, i) == []
    case Some(data) =>
      && r.buffs[i] == Serve(buff + data).rest
      && PacketsFor(r.calls, i) == StartingWith(Serve(buff + data).popped, 0xA0, 0xB0)
  }

  lemma ReachesFurther(
      buffs: seq<seq<byte>>, next: seq<seq<byte>>, data: seq<Option<seq<byte>>>, from: nat, i: nat)
    requires |data| == |buffs| == |next| && from < |buffs| && i < |buffs|
    requires forall j :: from < j < |buffs| ==> next[j] == buffs[j]
    requires data[from].Some? ==> !Serve(buffs[from] + data[from].value).raised
    ensures i != from ==> ReadOn(next, data, from + 1, i) == ReadOn(buffs, data, from, i)
    ensures i == from ==> ReadOn(next, data, from + 1, i) == None && ReadOn(buffs, data, from, i) == data[i]
  {
  }

  /** A connection that raises ends the round. */
  lemma RaiseEndsRound(buffs: seq<seq<byte>>, data: seq<Option<seq<byte>>>, from: nat, i: nat)
    requires |data| == |buffs| && from < |buffs| && i < |buffs|
    requires data[from].Some? && Serve(buffs[from] + data[from].value).raised
    ensures var r := ServeFrom(buffs, data, from);
      |r.buffs| == |buffs| && ServedAlone(r, buffs[i], ReadOn(buffs, data, from, i), i)
  {
    var s := Serve(buffs[from] + data[from].value);
    CallsAreFor(from, s.popped, i);
    if i == from {
      assert ReadOn(buffs, data, from, i) == data[i];
    } else {
      assert ReadOn(buffs, data, from, i) == None;
    }
    hide Serve, PacketsFor, StartingWith;
  }

  /** In one round a connection sees only what was read on it: its deque and its callbacks are those of serving that. */
  lemma {:induction false} RoundForConnection(
      buffs: seq<seq<byte>>, data: seq<Option<seq<byte>>>, from: nat, i: nat)
    requires |data| == |buffs| && from <= |buffs| && i < |buffs|
    ensures var r := ServeFrom(buffs, data, from);
      |r.buffs| == |buffs| && ServedAlone(r, buffs[i], ReadOn(buffs, data, from, i), i)
    decreases |buffs| - from
  {
    if from < |buffs| {
      hide Serve, PacketsFor, StartingWith, Reaches;
      if data[from] == None {
        RoundForConnection(buffs, data, from + 1, i);
        ReachesFurther(buffs, buffs, data, from, i);
      } else if Serve(buffs[from] + data[from].value).raised {
        RaiseEndsRound(buffs, data, from, i);
      } else {
        var s := Serve(buffs[from] + data[from].value);
        var next := buffs[from := s.rest];
        RoundForConnection(next, data, from + 1, i);
        ReachesFurther(buffs, next, data, from, i);
        CallsAreFor(from, s.popped, i);
        PacketsForAppend(Calls(from, s.popped), ServeFrom(next, data, from + 1).calls, i);
      }
    }
  }

  lemma {:induction false} NothingForStrangers(buffs: seq<seq<byte>>, data: seq<Option<seq<byte>>>, from: nat, i: nat)
    requires |data| == |buffs| && from <= |buffs| <= i
    ensures |ServeFrom(buffs, data, from).buffs| == |buffs|
    ensures PacketsFor(ServeFrom(buffs, data, from).calls, i) == []
    decreases |buffs| - from
  {
    if from < |buffs| {
      if data[from] == None {
        NothingForStrangers(buffs, data, from + 1, i);
      } else {
        var s := Serve(buffs[from] + data[from].value);
        var next := buffs[from := s.rest];
        CallsAreFor(from, s.popped, i);
        if !s.raised {
          NothingForStrangers(next, data, from + 1, i);
          PacketsForAppend(Calls(from, s.popped), ServeFrom(next, data, from + 1).calls, i);
        }
      }
    }
  }

  /** One connection by itself: `popped` are the packets taken off its deque, including the unknown ones. */
  datatype Connection = Connection(buff: seq<byte>, popped: seq<seq<byte>>, received: seq<byte>)

  function Receive(c: Connection, data: seq<byte>): Connection {
    var s := Serve(c.buff + data);
    Connection(s.rest, c.popped + s.popped, c.received + data)
  }

  /** A connection that has been read in these pieces. */
  function Received(chunks: seq<seq<byte>>): Connection {
    if chunks == [] then Connection([], [], [])
    else Receive(Received(chunks[..|chunks| - 1]), chunks[|chunks| - 1])
  }

  /** The last piece did not end its round with an unknown packet. */
  predicate LastReadWasClean(chunks: seq<seq<byte>>) {
    chunks == [] || !Serve(Received(chunks[..|chunks| - 1]).buff + chunks[|chunks| - 1]).raised
  }

  /** The pieces that a run of the server reads on connection `i`. */
  function ChunksRead(events: seq<Event>, i: nat): seq<seq<byte>> {
    if events == [] then []
    else
      var before, last := events[..|events| - 1], events[|events| - 1];
      var s := ServerAfter(before);
      var chunks := ChunksRead(before, i);
      if last.Looped? && |last.data| == |s.buffs| && i < |s.buffs| && ReadOn(s.buffs, last.data, 0, i).Some? then
        chunks + [ReadOn(s.buffs, last.data, 0, i).value]
      else chunks
  }

  /** Every connection of a server behaves as if it were alone. */
  lemma {:induction false} ConnectionsAreIndependent(events: seq<Event>, i: nat)
    ensures var s, chunks := ServerAfter(events), ChunksRead(events, i);
      if i < |s.buffs| then
        && s.buffs[i] == Received(chunks).buff
        && PacketsFor(s.calls, i) == StartingWith(Received(chunks).popped, 0xA0, 0xB0)
      else chunks == [] && PacketsFor(s.calls, i) == []
  {
    if events != [] {
      var before, last := events[..|events| - 1], events[|events| - 1];
      var s := ServerAfter(before);
      ConnectionsAreIndependent(before, i);
      if last.Looped? && |last.data| == |s.buffs| {
        var r := ServeFrom(s.buffs, last.data, 0);
        PacketsForAppend(s.calls, r.calls, i);
        if i < |s.buffs| {
          RoundForConnection(s.buffs, last.data, 0, i);
          var read := ReadOn(s.buffs, last.data, 0, i);
          if read.Some? {
            var chunks := ChunksRead(before, i);
            assert (chunks + [read.value])[..|chunks|] == chunks;
            StartingWithAppend(Received(chunks).popped, Serve(s.buffs[i] + read.value).popped);
          }
        } else {
          NothingForStrangers(s.buffs, last.data, 0, i);
        }
      }
    }
  }

  /** The packets popped and those still whole in the deque are the parse of all that was received. */
  predicate InStep(c: Connection) {
    Packets(c.received) == c.popped + Packets(c.buff) && Rest(c.received) == Rest(c.buff)
  }

  lemma ReceiveKeepsStep(c: Connection, data: seq<byte>)
    requires InStep(c)
    ensures InStep(Receive(c, data))
  {
    var b := c.buff + data;
    var s := Serve(b);
    ParseInParts(c.received, data);
    ParseInParts(c.buff, data);
    ServeFollowsParse(b);
    Assoc(c.popped, Packets(c.buff), Packets(Rest(c.buff) + data));
    Assoc(c.popped, s.popped, Packets(s.rest));
  }

  lemma {:induction false} ReceivedIsInStep(chunks: seq<seq<byte>>)
    ensures InStep(Received(chunks)) && Received(chunks).received == Concat(chunks)
    ensures LastReadWasClean(chunks) ==> !HasPacket(Received(chunks).buff)
  {
    if chunks != [] {
      var before, last := chunks[..|chunks| - 1], chunks[|chunks| - 1];
      ReceivedIsInStep(before);
      ReceiveKeepsStep(Received(before), last);
      ServeFollowsParse(Received(before).buff + last);
      ConcatSnoc(before, last);
      assert chunks == before + [last];
    }
  }

  /** A read that ends its round leaves an unknown packet in the stream. */
  lemma UncleanReadShows(chunks: seq<seq<byte>>) returns (p: seq<byte>)
    requires !LastReadWasClean(chunks)
    ensures p in Packets(Concat(chunks)) && !Known(p)
  {
    var before, last := Received(chunks[..|chunks| - 1]), chunks[|chunks| - 1];
    var s, c := Serve(before.buff + last), Received(chunks);
    ReceivedIsInStep(chunks);
    ServeFollowsParse(before.buff + last);
    hide Serve, Packets, Rest, Known;
    p := s.popped[|s.popped| - 1];
    assert p == c.popped[|c.popped| - 1];
    assert p == Packets(c.received)[|c.popped| - 1];
  }

  /** The callbacks of a run: `info_call` gets the packets that begin with 0xA0, `api_call` those with 0xB0. */
  lemma {:induction false} CallbackByFirstByte(events: seq<Event>, call: Call)
    requires call in ServerAfter(events).calls
    ensures if call.callback == InfoCall then [0xA0] <= call.packet else [0xB0] <= call.packet
  {
    var before, last := events[..|events| - 1], events[|events| - 1];
    if call in ServerAfter(before).calls {
      CallbackByFirstByte(before, call);
    } else {
      CallOfRound(ServerAfter(before).buffs, last.data, 0, call);
    }
  }

  lemma {:induction false} CallOfRound(buffs: seq<seq<byte>>, data: seq<Option<seq<byte>>>, from: nat, call: Call)
    requires |data| == |buffs| && from <= |buffs| && call in ServeFrom(buffs, data, from).calls
    ensures if call.callback == InfoCall then [0xA0] <= call.packet else [0xB0] <= call.packet
    decreases |buffs| - from
  {
    if data[from] == None {
      CallOfRound(buffs, data, from + 1, call);
    } else {
      var s := Serve(buffs[from] + data[from].value);
      if call in Calls(from, s.popped) {
        CallOfPackets(from, s.popped, call);
      } else {
        CallOfRound(buffs[from := s.rest], data, from + 1, call);
      }
    }
  }

  lemma {:induction false} CallOfPackets(conn: nat, packets: seq<seq<byte>>, call: Call)
    requires call in Calls(conn, packets)
    ensures if call.callback == InfoCall then [0xA0] <= call.packet else [0xB0] <= call.packet
  {
    if !Known(packets[0]) || call != CallFor(conn, packets[0]) {
      CallOfPackets(conn, packets[1..], call);
    }
  }

  /** For every run of the server, every cutting of the streams by `recv` and every connection: the callbacks fired on it
      and the packets still whole in its deque are, in order, the packets of the stream read on it, as far as they begin
      with 0xA0 or 0xB0. When the last round that read it raised nothing there, all of them have been fired and the deque
      holds no whole packet. */
  lemma ServerFollowsStream(events: seq<Event>, i: nat)
    requires i < |ServerAfter(events).buffs|
    ensures var s, chunks := ServerAfter(events), ChunksRead(events, i);
      var stream := Concat(chunks);
      && StartingWith(Packets(stream), 0xA0, 0xB0) ==
         PacketsFor(s.calls, i) + StartingWith(Packets(s.buffs[i]), 0xA0, 0xB0)
      && Rest(stream) == Rest(s.buffs[i])
      && (LastReadWasClean(chunks) ==>
            && PacketsFor(s.calls, i) == StartingWith(Packets(stream), 0xA0, 0xB0)
            && s.buffs[i] == Rest(stream) && !HasPacket(s.buffs[i]))
  {
    var chunks := ChunksRead(events, i);
    var c := Received(chunks);
    ConnectionsAreIndependent(events, i);
    ReceivedIsInStep(chunks);
    StartingWithAppend(c.popped, Packets(c.buff));
  }

  /** So a stream of such packets only is served completely and in order, whatever happens on other connections. */
  lemma KnownStreamIsServed(events: seq<Event>, i: nat)
    requires i < |ServerAfter(events).buffs|
    requires forall p :: p in Packets(Concat(ChunksRead(events, i))) ==> [0xA0] <= p || [0xB0] <= p
    ensures var s, stream := ServerAfter(events), Concat(ChunksRead(events, i));
      PacketsFor(s.calls, i) == Packets(stream) && s.buffs[i] == Rest(stream)
  {
    ServerFollowsStream(events, i);
    forall p | p in Packets(Concat(ChunksRead(events, i)))
      ensures Known(p)
    {
      KnownInBytes(p);
    }
    AllStartWith(Packets(Concat(ChunksRead(events, i))));
    if !LastReadWasClean(ChunksRead(events, i)) {
      var p := UncleanReadShows(ChunksRead(events, i));
      assert false;
    }
  }

  lemma {:induction false} AllStartWith(packets: seq<seq<byte>>)
    requires forall p :: p in packets ==> Known(p)
    ensures StartingWith(packets, 0xA0, 0xB0) == packets
  {
    if packets != [] {
      KnownInBytes(packets[0]);
      AllStartWith(packets[1..]);
    }
  }

  /** The client after calls of `loop` that received `data`. */
  function PollAll(data: seq<Option<seq<byte>>>): Polled {
    if data == [] then Polled([], [], []) else Poll(PollAll(data[..|data| - 1]), data[|data| - 1])
  }

  lemma {:induction false} PollAllInStep(data: seq<Option<seq<byte>>>)
    ensures PollInStep(PollAll(data))
  {
    if data != [] {
      PollAllInStep(data[..|data| - 1]);
      PollKeepsStep(PollAll(data[..|data| - 1]), data[|data| - 1]);
    }
  }

  function StreamOf(data: seq<Option<seq<byte>>>): seq<byte> {
    if data == [] then []
    else StreamOf(data[..|data| - 1]) + (if data[|data| - 1].Some? then data[|data| - 1].value else [])
  }

  /** How many packets are complete after the first `k` calls. */
  function Complete(data: seq<Option<seq<byte>>>, k: nat): nat
    requires k <= |data|
  {
    |Packets(StreamOf(data[..k]))|
  }

  /** How many of the calls from `k` up to `n` receive something. */
  function Arrivals(data: seq<Option<seq<byte>>>, k: nat, n: nat): nat
    requires k <= n <= |data|
    decreases n
  {
    if n == k then 0 else Arrivals(data, k, n - 1) + (if data[n - 1].Some? then 1 else 0)
  }

  lemma {:induction false} PollReceivesStream(data: seq<Option<seq<byte>>>)
    ensures PollAll(data).received == StreamOf(data)
  {
    if data != [] {
      PollReceivesStream(data[..|data| - 1]);
    }
  }

  /** One call: the number of packets returned goes up by one if something arrives and a packet is left. */
  lemma PollCounts(data: seq<Option<seq<byte>>>, n: nat)
    requires n < |data|
    ensures var before, after := |PollAll(data[..n]).results|, |PollAll(data[..n + 1]).results|;
      && before <= Complete(data, n)
      && after == (if data[n] == None then before else Min(before + 1, Complete(data, n + 1)))
      && (data[n] == None ==> Complete(data, n + 1) == Complete(data, n))
  {
    var before := data[..n];
    assert data[..n + 1][..n] == before;
    PollAllInStep(before);
    PollAllInStep(data[..n + 1]);
    PollReceivesStream(before);
    PollReceivesStream(data[..n + 1]);
    hide StreamOf;
  }

  /** The client is a queue served once per arrival: the packets returned so far are bounded by what was complete at any
      earlier moment plus one for each arrival since, and for one moment `k` the bound is met. */
  lemma {:induction false} PolledCount(data: seq<Option<seq<byte>>>, n: nat) returns (k: nat)
    requires n <= |data|
    ensures k <= n && |PollAll(data[..n]).results| == Complete(data, k) + Arrivals(data, k, n)
    ensures forall j: nat :: j <= n ==> |PollAll(data[..n]).results| <= Complete(data, j) + Arrivals(data, j, n)
    decreases n
  {
    if n == 0 {
      k := 0;
    } else {
      k := PolledCount(data, n - 1);
      PollCounts(data, n - 1);
      hide Complete, PollAll;
      if data[n - 1].Some? && |PollAll(data[..n]).results| == Complete(data, n) {
        k := n;
      }
    }
  }

  /** After no call has the stream run ahead: since then no more packets have become complete than calls have received
      something. */
  predicate NeverAhead(data: seq<Option<seq<byte>>>) {
    forall k: nat :: k <= |data| ==> Complete(data, |data|) - Complete(data, k) <= Arrivals(data, k, |data|)
  }

  /** The client's results are a prefix of the packets of the stream. They are all of them exactly when the data never
      ran ahead of the calls that received them. */
  lemma ClientFollowsStream(data: seq<Option<seq<byte>>>)
    ensures var results, packets := PollAll(data).results, Packets(StreamOf(data));
      IsPrefix(results, packets) && (results == packets <==> NeverAhead(data))
  {
    PollAllInStep(data);
    PollReceivesStream(data);
    assert data[..|data|] == data;
    var k := PolledCount(data, |data|);
    assert Complete(data, |data|) == |Packets(StreamOf(data))|;
  }

  /** A burst is not delivered: two packets that arrive together, and nothing after them. */
  lemma BurstStaysBehind(p: seq<byte>, q: seq<byte>)
    requires HasPacket(p) && PacketSize(p) == |p| && HasPacket(q) && PacketSize(q) == |q|
    ensures PollAll([Some(p + q)]).results == [p] && Packets(StreamOf([Some(p + q)])) == [p, q]
    ensures !NeverAhead([Some(p + q)])
  {
    var data := [Some(p + q)];
    TwoPackets(p, q);
    ClientFollowsStream(data);
    assert data[..0] == [] && [] + (p + q) == p + q;
    hide Packets;
    assert PollAll(data) == Poll(PollAll([]), Some(p + q)) && StreamOf(data) == p + q;
  }

  lemma TwoPackets(p: seq<byte>, q: seq<byte>)
    requires HasPacket(p) && PacketSize(p) == |p| && HasPacket(q) && PacketSize(q) == |q|
    ensures HasPacket(p + q) && (p + q)[..PacketSize(p + q)] == p && Packets(p + q) == [p, q]
  {
    assert (p + q)[..|p|] == p && (p + q)[|p|..] == q && q[..|q|] == q && q[|q|..] == [];
    assert Packets([]) == [];
    assert Packets(q) == [q];
    assert Packets(p + q) == [p] + Packets(q);
  }
}
