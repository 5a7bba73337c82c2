/** The socket protocol between the control station and the board, controller/talk_module/talk_misc.py. */
module Talk {
  import opened Basics

  const GET_INFO: byte := 0xA0
  const COMMAND: byte := 0xB0

  /** The number of bytes of the packet a buffer starts with: three header bytes, then the data. */
  function PacketSize(b: seq<byte>): nat
    requires |b| >= 3
  {
    b[2] as nat + 3
  }

  predicate HasPacket(b: seq<byte>) {
    |b| >= 3 && PacketSize(b) <= |b|
  }

  /** The reference parser: every whole packet of a stream, in order. */
  function Packets(b: seq<byte>): seq<seq<byte>>
    decreases |b|
  {
    if HasPacket(b) then [b[..PacketSize(b)]] + Packets(b[PacketSize(b)..]) else []
  }

  /** What is left after the last whole packet. */
  function Rest(b: seq<byte>): seq<byte>
    decreases |b|
  {
    if HasPacket(b) then Rest(b[PacketSize(b)..]) else b
  }

  /** Parsing loses nothing and leaves no whole packet. */
  lemma {:induction false} PacketsAndRest(b: seq<byte>)
    ensures Concat(Packets(b)) + Rest(b) == b
    ensures !HasPacket(Rest(b))
    decreases |b|
  {
    if HasPacket(b) {
      var k := PacketSize(b);
      PacketsAndRest(b[k..]);
      assert Packets(b)[1..] == Packets(b[k..]);
      assert b == b[..k] + b[k..];
      Assoc(b[..k], Concat(Packets(b[k..])), Rest(b[k..]));
    } else {
      assert Concat([]) + b == b;
    }
  }

  /** Where a stream is cut does not matter. */
  lemma {:induction false} ParseInParts(a: seq<byte>, b: seq<byte>)
    ensures Packets(a + b) == Packets(a) + Packets(Rest(a) + b)
    ensures Rest(a + b) == Rest(Rest(a) + b)
    decreases |a|
  {
    if HasPacket(a) {
      var k := PacketSize(a);
      assert (a + b)[..k] == a[..k] && (a + b)[k..] == a[k..] + b;
      ParseInParts(a[k..], b);
      Assoc([a[..k]], Packets(a[k..]), Packets(Rest(a[k..]) + b));
    } else {
      assert Packets(a) + Packets(a + b) == Packets(a + b);
    }
  }

  predicate Known(packet: seq<byte>) {
    |packet| >= 1 && (packet[0] == GET_INFO || packet[0] == COMMAND)
  }

  /** The outcome of serving one connection: the packets taken off its deque (the last one rejected if `raised`). */
  datatype Served = Served(popped: seq<seq<byte>>, rest: seq<byte>, raised: bool)

  /** The inner `while` of `server.loop`: an unknown packet is popped before the exception is raised. */
  function Serve(b: seq<byte>): Served
    decreases |b|
  {
    if !HasPacket(b) then Served([], b, false)
    else
      var packet := b[..PacketSize(b)];
      if Known(packet) then
        var s := Serve(b[PacketSize(b)..]);
        Served([packet] + s.popped, s.rest, s.raised)
      else Served([packet], b[PacketSize(b)..], true)
  }

  /** The serving of a deque raises exactly when one of its whole packets begins with neither 0xA0 nor 0xB0. */
  lemma {:induction false} ServeRaisesIff(b: seq<byte>)
    ensures Serve(b).raised <==> exists p :: p in Packets(b) && !([0xA0] <= p) && !([0xB0] <= p)
    decreases |b|
  {
    if HasPacket(b) {
      var first, later := b[..PacketSize(b)], b[PacketSize(b)..];
      assert Packets(b) == [first] + Packets(later);
      assert forall c: byte :: [c] <= first <==> first[0] == c;
      ServeRaisesIff(later);
      if first[0] == 0xA0 || first[0] == 0xB0 {
        assert forall p :: p in Packets(b) <==> p == first || p in Packets(later);
      } else {
        assert first in Packets(b);
      }
    }
  }

  /** `info_call` and `api_call`. */
  datatype Callback = InfoCall | ApiCall

  datatype Call = Call(callback: Callback, conn: nat, packet: seq<byte>)

  function CallFor(conn: nat, packet: seq<byte>): Call
    requires Known(packet)
  {
    Call(if packet[0] == GET_INFO then InfoCall else ApiCall, conn, packet)
  }

  /** The callbacks fired for one connection. */
  function Calls(conn: nat, packets: seq<seq<byte>>): seq<Call> {
    if packets == [] then []
    else (if Known(packets[0]) then [CallFor(conn, packets[0])] else []) + Calls(conn, packets[1..])
  }

  /** The effect of one call of `server.loop` on the connections from `from` on. A connection whose `recv` failed is
      skipped; one that raises ends the call, so the later ones are not read at all. */
  datatype Round = Round(buffs: seq<seq<byte>>, calls: seq<Call>, raised: bool)

  function ServeFrom(buffs: seq<seq<byte>>, data: seq<Option<seq<byte>>>, from: nat): Round
    requires |data| == |buffs| && from <= |buffs|
    decreases |buffs| - from
  {
    if from == |buffs| then Round(buffs, [], false)
    else if data[from] == None then ServeFrom(buffs, data, from + 1)
    else
      var s := Serve(buffs[from] + data[from].value);
      var next := buffs[from := s.rest];
      if s.raised then Round(next, Calls(from, s.popped), true)
      else
        var r := ServeFrom(next, data, from + 1);
        Round(r.buffs, Calls(from, s.popped) + r.calls, r.raised)
  }

  /** A round raises exactly when some connection, with what is received on it, has a whole packet that begins with
      neither 0xA0 nor 0xB0: the first such connection ends the round. */
  lemma {:induction false} RoundRaisesIff(buffs: seq<seq<byte>>, data: seq<Option<seq<byte>>>, from: nat)
    requires |data| == |buffs| && from <= |buffs|
    ensures ServeFrom(buffs, data, from).raised <==>
      exists i, p :: from <= i < |buffs| && data[i].Some? && p in Packets(buffs[i] + data[i].value)
                     && !([0xA0] <= p) && !([0xB0] <= p)
    decreases |buffs| - from
  {
    if from < |buffs| {
      hide Packets, Serve;
      if data[from].Some? {
        var b := buffs[from] + data[from].value;
        var next := buffs[from := Serve(b).rest];
        ServeRaisesIff(b);
        RoundRaisesIff(next, data, from + 1);
        if Serve(b).raised {
          var p :| p in Packets(b) && !([0xA0] <= p) && !([0xB0] <= p);
          assert p in Packets(buffs[from] + data[from].value);
        }
        assert forall i, p :: from < i < |buffs| && data[i].Some? ==>
          (p in Packets(next[i] + data[i].value) <==> p in Packets(buffs[i] + data[i].value));
      } else {
        RoundRaisesIff(buffs, data, from + 1);
      }
    }
  }

  /** What happens to a server: a connection is accepted, or `loop` runs; `data[i]` is what `recv` gives on connection
      `i` if the round gets that far, None for a socket error. */
  datatype Event = Accepted | Looped(data: seq<Option<seq<byte>>>)

  datatype ServerState = ServerState(buffs: seq<seq<byte>>, calls: seq<Call>)

  function Handled(s: ServerState, e: Event): ServerState {
    match e
    case Accepted => ServerState(s.buffs + [[]], s.calls)
    case Looped(data) =>
      if |data| != |s.buffs| then s
      else
        var r := ServeFrom(s.buffs, data, 0);
        ServerState(r.buffs, s.calls + r.calls)
  }

  /** The server after a whole run. */
  function ServerAfter(events: seq<Event>): ServerState {
    if events == [] then ServerState([], [])
    else Handled(ServerAfter(events[..|events| - 1]), events[|events| - 1])
  }

  class Server {
    var buffs: seq<seq<byte>>
    var calls: seq<Call>
    ghost var events: seq<Event>

    /** The server is where its run has brought it. */
    ghost predicate Valid()
      reads this
    {
      ServerState(buffs, calls) == ServerAfter(events)
    }

    constructor ()
      ensures Valid() && events == []
    {
      buffs, calls, events := [], [], [];
    }

    /** `accept`, when a connection was waiting. */
    method Accept()
      requires Valid()
      modifies this
      ensures Valid() && events == old(events) + [Accepted]
      ensures buffs == old(buffs) + [[]] && calls == old(calls)
    {
      buffs := buffs + [[]];
      events := events + [Accepted];
    }

    /** `popleft` repeated: takes the first packet off the deque of connection `conn`. */
    method PopPacket(conn: nat) returns (packet: seq<byte>)
      requires conn < |buffs| && HasPacket(buffs[conn])
      modifies `buffs
      ensures packet == old(buffs[conn])[..PacketSize(old(buffs[conn]))]
      ensures buffs == old(buffs)[conn := old(buffs[conn])[PacketSize(old(buffs[conn]))..]]
    {
      var size := PacketSize(buffs[conn]);
      ghost var b := buffs[conn];
      packet := [];
      var count := 0;
      while count < size
        invariant count <= size <= |b| && |buffs| == |old(buffs)|
        invariant packet == b[..count]
        invariant buffs == old(buffs)[conn := b[count..]]
      {
        packet := packet + [buffs[conn][0]];
        buffs := buffs[conn := buffs[conn][1..]];
        count := count + 1;
      }
    }

    /** The inner `while` of `loop` for connection `conn`. */
    method ServeOne(conn: nat) returns (raised: bool)
      requires conn < |buffs|
      modifies `buffs, `calls
      ensures var s := Serve(old(buffs[conn]));
        && raised == s.raised
        && buffs == old(buffs)[conn := s.rest]
        && calls == old(calls) + Calls(conn, s.popped)
    {
      raised := false;
      ghost var done: seq<seq<byte>> := [];
      ghost var b := buffs[conn];
      while HasPacket(buffs[conn])
        invariant |buffs| == |old(buffs)| && buffs == old(buffs)[conn := buffs[conn]]
        invariant Serve(b) == Served(done + Serve(buffs[conn]).popped, Serve(buffs[conn]).rest, Serve(buffs[conn]).raised)
        invariant calls == old(calls) + Calls(conn, done)
        decreases |buffs[conn]|
      {
        ghost var before := buffs[conn];
        var packet := PopPacket(conn);
        CallsAppend(conn, done, [packet]);
        assert Calls(conn, [packet]) == if Known(packet) then [CallFor(conn, packet)] else [];
        if packet[0] == GET_INFO {
          calls := calls + [Call(InfoCall, conn, packet)];
        } else if packet[0] == COMMAND {
          calls := calls + [Call(ApiCall, conn, packet)];
        } else {
          assert Serve(before).popped == [packet];
          assert calls == old(calls) + Calls(conn, done + [packet]);
          return true;
        }
        Assoc(done, [packet], Serve(buffs[conn]).popped);
        done := done + [packet];
      }
      assert done + [] == done;
    }

    /** `server.loop`. */
    method Loop(data: seq<Option<seq<byte>>>) returns (raised: bool)
      requires Valid() && |data| == |buffs|
      modifies this
      ensures Valid() && events == old(events) + [Looped(data)]
      ensures |buffs| == |old(buffs)|
      ensures raised <==>
        exists i, p :: 0 <= i < |data| && data[i].Some? && p in Packets(old(buffs)[i] + data[i].value)
                       && !([0xA0] <= p) && !([0xB0] <= p)
    {
      RoundRaisesIff(buffs, data, 0);
      raised := ServeAll(data);
      events := events + [Looped(data)];
    }

    /** The outer `for` of `loop`. */
    method ServeAll(data: seq<Option<seq<byte>>>) returns (raised: bool)
      requires |data| == |buffs|
      modifies `buffs, `calls
      ensures var r := ServeFrom(old(buffs), data, 0);
        buffs == r.buffs && calls == old(calls) + r.calls && raised == r.raised
      ensures |buffs| == |old(buffs)|
    {
      ghost var all := ServeFrom(buffs, data, 0);
      assert calls + all.calls == old(calls) + all.calls;
      var i := 0;
      while i < |buffs|
        invariant i <= |buffs| == |data| == |old(buffs)|
        invariant var r := ServeFrom(buffs, data, i);
          r.buffs == all.buffs && r.raised == all.raised && calls + r.calls == old(calls) + all.calls
      {
        if data[i] != None {
          ghost var earlier, start := calls, buffs;
          buffs := buffs[i := buffs[i] + data[i].value];
          raised := ServeOne(i);
          assert buffs == start[i := Serve(start[i] + data[i].value).rest];
          if raised {
            return;
          }
          Assoc(earlier, Calls(i, Serve(start[i] + data[i].value).popped), ServeFrom(buffs, data, i + 1).calls);
        }
        i := i + 1;
      }
      raised := false;
      assert calls + [] == calls;
    }
  }

  /** A client after some calls of `loop`: the packets it returned, its deque, and all it has received. */
  datatype Polled = Polled(results: seq<seq<byte>>, buff: seq<byte>, received: seq<byte>)

  function Poll(c: Polled, data: Option<seq<byte>>): Polled {
    if data == None then c
    else
      var b := c.buff + data.value;
      if HasPacket(b) then Polled(c.results + [b[..PacketSize(b)]], b[PacketSize(b)..], c.received + data.value)
      else Polled(c.results, b, c.received + data.value)
  }

  /** The packets returned and those still whole in the deque are the packets of the stream. */
  predicate PollInStep(c: Polled) {
    Packets(c.received) == c.results + Packets(c.buff) && Rest(c.received) == Rest(c.buff)
  }

  lemma PollKeepsStep(c: Polled, data: Option<seq<byte>>)
    requires PollInStep(c)
    ensures PollInStep(Poll(c, data))
  {
    if data.Some? {
      var b := c.buff + data.value;
      ParseInParts(c.received, data.value);
      ParseInParts(c.buff, data.value);
      Assoc(c.results, Packets(c.buff), Packets(Rest(c.buff) + data.value));
      if HasPacket(b) {
        Assoc(c.results, [b[..PacketSize(b)]], Packets(b[PacketSize(b)..]));
      }
    }
  }

  class Client {
    var buff: seq<byte>
    ghost var results: seq<seq<byte>>
    ghost var received: seq<byte>

    ghost function State(): Polled
      reads this
    {
      Polled(results, buff, received)
    }

    constructor ()
      ensures State() == Polled([], [], []) && PollInStep(State())
    {
      buff, results, received := [], [], [];
    }

    /** `client.loop`: a call that receives something returns the next packet of the stream if all of it has come,
        and one that receives nothing returns nothing, whatever the deque holds. */
    method Loop(data: Option<seq<byte>>) returns (packet: Option<seq<byte>>)
      requires PollInStep(State())
      modifies this
      ensures PollInStep(State()) && State() == Poll(old(State()), data)
      ensures received == old(received) + (if data.Some? then data.value else [])
      ensures packet.Some? <==> data.Some? && |Packets(received)| > |old(results)|
      ensures packet.Some? ==> packet.value == Packets(received)[|old(results)|]
      ensures results == old(results) + (if packet.Some? then [packet.value] else [])
    {
      PollKeepsStep(State(), data);
      if data == None {
        return None;
      }
      buff, received := buff + data.value, received + data.value;
      if HasPacket(buff) {
        var size := PacketSize(buff);
        packet := Some(buff[..size]);
        buff, results := buff[size..], results + [buff[..size]];
      } else {
        packet := None;
      }
    }
  }

  lemma {:induction false} CallsAppend(conn: nat, a: seq<seq<byte>>, b: seq<seq<byte>>)
    ensures Calls(conn, a + b) == Calls(conn, a) + Calls(conn, b)
  {
    if a == [] {
      assert a + b == b;
    } else {
      assert (a + b)[1..] == a[1..] + b;
      CallsAppend(conn, a[1..], b);
      Assoc(if Known(a[0]) then [CallFor(conn, a[0])] else [], Calls(conn, a[1..]), Calls(conn, b));
    }
  }
}
