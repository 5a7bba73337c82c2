/** The host end of the frame format, panda/user/copter.py. */
module Copter {
  import opened Basics
  import opened Frames

  /** The opened device file. `stream` is every byte the firmware has sent and nobody has read yet; `grants` says how
      many bytes each of the next reads will find ready (an idle device answers with fewer bytes than asked, or none).
      After those reads the device keeps up. */
  class Port {
    var stream: seq<byte>
    var grants: seq<nat>

    constructor (s: seq<byte>, g: seq<nat>)
      ensures stream == s && grants == g
    {
      stream, grants := s, g;
    }

    /** `port_read.read(count)`. */
    method Read(count: nat) returns (got: seq<byte>)
      modifies this
      ensures got + stream == old(stream)
      ensures |got| <= count
      ensures |got| == Min(if old(grants) == [] then count else Min(count, old(grants)[0]), |old(stream)|)
      ensures grants == if old(grants) == [] then [] else old(grants)[1..]
    {
      var ready := if grants == [] then count else Min(count, grants[0]);
      var n := Min(ready, |stream|);
      got := stream[..n];
      stream := stream[n..];
      grants := if grants == [] then [] else grants[1..];
    }
  }

  /** `sendCommand`: building the output fails when the length or the command does not fit into a byte. */
  method SendCommand(cmd: nat, buf: seq<byte>) returns (outbuf: Option<seq<byte>>)
    ensures outbuf.Some? <==> |buf| <= 255 && cmd <= 255
    ensures outbuf.Some? ==> HasFrame(outbuf.value) && outbuf.value == Encode(Frame(cmd, buf))
    ensures outbuf.Some? ==> Parse(outbuf.value) == Parsed([Frame(cmd, buf)], [])
  {
    var length := |buf|;
    if length > 255 || cmd > 255 {
      return None;
    }
    var bytes: seq<byte> := [length];
    bytes := bytes + [cmd];
    bytes := bytes + buf;
    outbuf := Some(bytes);
    assert bytes == Encode(Frame(cmd, buf));
    assert EncodeAll([Frame(cmd, buf)]) + [] == bytes;
    EncodeThenParse([Frame(cmd, buf)], []);
  }

  /** How `recvCommand` ends: None, a command, or not at all, because the rest of a frame never comes. */
  datatype Received = Nothing | Command(frame: Frame) | WaitsForEver

  /** The first loop of `recvCommand`; None when it never ends. */
  method RecvByte(port: Port) returns (c: Option<byte>)
    modifies port
    ensures c == None <==> old(port.stream) == []
    ensures c.Some? ==> [c.value] + port.stream == old(port.stream)
  {
    var cmdbytes := [];
    while |cmdbytes| == 0
      invariant cmdbytes + port.stream == old(port.stream) && |cmdbytes| <= 1
      decreases |port.grants|, |cmdbytes| == 0
    {
      if port.stream == [] {
        return None;
      }
      cmdbytes := port.Read(1);
    }
    c := Some(cmdbytes[0]);
  }

  /** The second loop of `recvCommand`; None when it never ends. */
  method RecvPayload(port: Port, size: nat) returns (payload: Option<seq<byte>>)
    modifies port
    ensures payload == None <==> |old(port.stream)| < size
    ensures payload.Some? ==> |payload.value| == size && payload.value + port.stream == old(port.stream)
  {
    var sizeleft: nat := size;
    var buf: seq<byte> := [];
    while true
      invariant buf + port.stream == old(port.stream)
      invariant |buf| + sizeleft == size
      decreases |port.grants|, sizeleft
    {
      if sizeleft > 0 && port.stream == [] {
        return None;
      }
      var got := port.Read(sizeleft);
      Assoc(buf, got, port.stream);
      buf := buf + got;
      if |buf| < size {
        sizeleft := size - |buf|;
      } else {
        break;
      }
    }
    payload := Some(buf);
  }

  /** `recvCommand`: nothing when no byte is ready; otherwise it waits until it has the whole frame, however the bytes
      trickle in. If the device never sends the rest of the frame, the source loops for ever. */
  method RecvCommand(port: Port) returns (r: Received)
    modifies port
    ensures r == Nothing <==> old(port.stream) == [] || (old(port.grants) != [] && old(port.grants)[0] == 0)
    ensures r == Nothing ==>
      port.stream == old(port.stream) && (old(port.grants) != [] ==> port.grants == old(port.grants)[1..])
    ensures r == WaitsForEver <==> r != Nothing && !HasFrame(old(port.stream))
    ensures r.Command? ==>
      && r.frame == FirstFrame(old(port.stream))
      && port.stream == old(port.stream)[FrameSize(old(port.stream))..]
  {
    ghost var stream := port.stream;
    var sizebytes := port.Read(1);
    if |sizebytes| == 0 {
      return Nothing;
    }
    var size: byte := sizebytes[0];
    var cmd := RecvByte(port);
    if cmd == None {
      return WaitsForEver;
    }
    ghost var left := port.stream;
    assert stream == [size, cmd.value] + left;
    var buf := RecvPayload(port, size as nat);
    if buf == None {
      return WaitsForEver;
    }
    assert stream == [size, cmd.value] + buf.value + port.stream;
    assert stream[2..FrameSize(stream)] == buf.value;
    r := Command(Frame(cmd.value, buf.value));
  }

  lemma FirstOfEncoded(f: Frame, rest: seq<byte>)
    ensures var b := Encode(f) + rest;
      HasFrame(b) && FirstFrame(b) == f && b[FrameSize(b)..] == rest
  {
    var b := Encode(f) + rest;
    assert b[2..FrameSize(b)] == f.payload;
  }

  /** Receiving until `n` commands have come: whatever the device grants at a time, from the encodings of `n` frames one
      after the other it gives back exactly those frames, in order, and leaves what follows them. */
  method ReceiveAll(port: Port, n: nat, ghost fs: seq<Frame>, ghost tail: seq<byte>) returns (got: seq<Frame>)
    requires |fs| == n && port.stream == EncodeAll(fs) + tail
    modifies port
    ensures got == fs && port.stream == tail
  {
    got := [];
    assert fs[0..] == fs;
    while |got| < n
      invariant |got| <= n && got == fs[..|got|]
      invariant port.stream == EncodeAll(fs[|got|..]) + tail
      decreases n - |got|, |port.grants|
    {
      ghost var f, later := fs[|got|], EncodeAll(fs[|got| + 1..]) + tail;
      assert fs[|got|..][1..] == fs[|got| + 1..];
      Assoc(Encode(f), EncodeAll(fs[|got| + 1..]), tail);
      FirstOfEncoded(f, later);
      var r := RecvCommand(port);
      if r.Command? {
        got := got + [r.frame];
      }
    }
    assert fs[n..] == [] && EncodeAll([]) + tail == tail;
  }
}
