/** The firmware's command processor, panda/m3/command.c: the static variables become fields. */
module Command {
  import opened Basics
  import opened Ring
  import opened Frames

  /** An entry of `cmd_map`: the two handlers of this file, or one registered by another file. */
  datatype Handler = NoHandler | ConnectCmd | DisconnectCmd | OtherCmd(id: nat)

  /** How one call of `command_process` ended. */
  datatype Outcome =
    | NothingToRead
    | Unfinished
    | Dispatched(frame: Frame)
    | AssertFailed(frame: Frame)   // DASSERT(cmd < 128): the processor stops here

  /** What one tick does to the bytes assembled so far (`partial`) and the bytes waiting in the ring (`input`):
      it takes `taken` of them, and ends at the first frame boundary or when they run out. */
  ghost predicate TickSpec(partial: seq<byte>, input: seq<byte>, taken: nat, outcome: Outcome, partial': seq<byte>) {
    && taken <= |input|
    && match outcome
       case NothingToRead => input == [] && taken == 0 && partial' == partial
       case Unfinished => input != [] && taken == |input| && partial' == partial + input && !HasFrame(partial')
       case Dispatched(f) => taken >= 1 && partial + input[..taken] == Encode(f) && f.cmd < 128 && partial' == []
       case AssertFailed(f) => taken >= 1 && partial + input[..taken] == Encode(f) && f.cmd >= 128
  }

  /** The part of a reply that fits into the transmit ring; the rest is dropped silently. */
  function Fitting(bytes: seq<byte>, room: nat): seq<byte> {
    bytes[..Min(|bytes|, room)]
  }

  /** Two bytes and the payload, each clipped to the room left, are the frame clipped to the room. */
  lemma FittingInParts(before: seq<byte>, length: byte, cmd: byte, data: Payload, room: nat)
    requires length == |data|
    ensures var one := if room >= 1 then [length] else [];
      var two := if room >= 2 then [cmd] else [];
      before + one + two + Fitting(data, room - |one| - |two|) == before + Fitting(Encode(Frame(cmd, data)), room)
  {
  }

  /** The reply that `func` (or its absence) sends, if it is one of this file's handlers. */
  function Reply(func: Handler): seq<byte> {
    match func
    case NoHandler => Encode(Frame('e' as int, []))
    case ConnectCmd => Encode(Frame('c' as int, []))
    case DisconnectCmd => Encode(Frame('d' as int, []))
    case OtherCmd(_) => []
  }

  /** In bytes, where there is room: 'c' and 'd' acknowledge, 'e' is the answer to an unknown command. */
  lemma ReplyInBytes(func: Handler, room: nat)
    requires room >= 2
    ensures func == ConnectCmd ==> Fitting(Reply(func), room) == [0, 'c' as int]
    ensures func == DisconnectCmd ==> Fitting(Reply(func), room) == [0, 'd' as int]
    ensures func == NoHandler ==> Fitting(Reply(func), room) == [0, 'e' as int]
    ensures func.OtherCmd? ==> Fitting(Reply(func), room) == []
  {
  }

  class CommandProcessor {
    const rbTx: RingBuffer
    const rbRx: RingBuffer
    const cmdBuf: array<byte>
    const cmdMap: array<Handler>
    var cmdBufI: int
    var cmdBufLeft: int
    var cmdBufLen: byte
    var connected: bool
    ghost var calls: seq<(Handler, Frame)>   // every handler call made so far

    ghost predicate Wired()
      reads this, rbTx, rbTx.data, rbRx, rbRx.data
    {
      && rbTx != rbRx && rbTx.data != rbRx.data && cmdBuf != rbTx.data && cmdBuf != rbRx.data
      && rbTx.Valid() && rbRx.Valid()
      && cmdBuf.Length == 256 && cmdMap.Length == 128
    }

    /** Between ticks a frame in assembly always lacks at least one byte. */
    ghost predicate Valid()
      reads this, rbTx, rbTx.data, rbRx, rbRx.data
    {
      && Wired()
      && (cmdBufI == -1 || (0 <= cmdBufI && 1 <= cmdBufLeft && cmdBufI + cmdBufLeft == cmdBufLen as int + 1))
    }

    /** The bytes received of the frame in assembly. */
    ghost function Partial(): seq<byte>
      requires cmdBuf.Length == 256
      reads this, cmdBuf
    {
      if 0 <= cmdBufI <= 256 then [cmdBufLen] + cmdBuf[..cmdBufI] else []
    }

    /** `command_init`. */
    constructor (tx: nat, rx: nat)
      requires 8 < tx < 0x8000_0000 && 8 < rx < 0x8000_0000
      ensures Valid() && Partial() == [] && !connected && calls == []
      ensures rbRx.Contents() == [] && rbTx.Contents() == []
      ensures rbTx.size == tx - 8 && rbRx.size == rx - 8
      ensures fresh(rbTx) && fresh(rbTx.data) && fresh(rbRx) && fresh(rbRx.data) && fresh(cmdBuf) && fresh(cmdMap)
      ensures forall c :: 0 <= c < 128 ==>
        (cmdMap[c] == if c == 'c' as int then ConnectCmd else if c == 'd' as int then DisconnectCmd else NoHandler)
    {
      rbTx := new RingBuffer(tx);
      rbRx := new RingBuffer(rx);
      cmdBuf := new byte[256](_ => 0);
      cmdMap := new Handler[128](_ => NoHandler);
      cmdBufI := -1;
      cmdBufLeft := 0;
      cmdBufLen := 0;
      connected := false;
      calls := [];
      new;
      var _ := CommandRegister('c' as int, ConnectCmd);
      var _ := CommandRegister('d' as int, DisconnectCmd);
    }

    /** `command_register`. On a command of 128 or more the assertion fails and the processor stops. */
    method CommandRegister(cmd: byte, func: Handler) returns (registered: bool)
      requires cmdMap.Length == 128
      modifies cmdMap
      ensures registered <==> cmd < 128
      ensures forall c: int :: 0 <= c < 128 ==> cmdMap[c] == if c == cmd as int then func else old(cmdMap[c])
    {
      if cmd >= 128 {
        return false;
      }
      cmdMap[cmd] := func;
      registered := true;
    }

    /** `command_send` while the host does not read: the longest prefix of the frame that fits is appended.
        ReplyChannel.dfy runs it against a host that does. */
    method CommandSend(cmd: byte, data: Payload)
      requires rbTx.Valid()
      modifies rbTx`writePos, rbTx.data
      ensures rbTx.Valid()
      ensures rbTx.Contents() ==
        old(rbTx.Contents()) + Fitting(Encode(Frame(cmd, data)), old(rbTx.size - 1 - |rbTx.Contents()|))
    {
      ghost var before := rbTx.Contents();
      ghost var room := rbTx.size - 1 - |before|;
      rbTx.Putc(|data|);
      rbTx.Putc(cmd);
      FittingInParts(before, |data|, cmd, data, room);
      var n := rbTx.Write(data, |data|);
    }

    /** Calling the handler found in `cmd_map`, or answering 'e' when there is none. */
    method Call(func: Handler, frame: Frame)
      requires Wired()
      modifies `connected, `calls, rbTx`writePos, rbTx.data
      ensures Wired()
      ensures connected == if func.ConnectCmd? then true else if func.DisconnectCmd? then false else old(connected)
      ensures calls == old(calls) + (if func.NoHandler? then [] else [(func, frame)])
      ensures rbTx.Contents() ==
        old(rbTx.Contents()) + Fitting(Reply(func), old(rbTx.size - 1 - |rbTx.Contents()|))
    {
      match func {
        case NoHandler =>
          CommandSend('e' as int, []);
        case ConnectCmd =>
          connected := true;
          CommandSend('c' as int, []);
        case DisconnectCmd =>
          connected := false;
          CommandSend('d' as int, []);
        case OtherCmd(_) =>
          assert rbTx.Contents() == old(rbTx.Contents()) + [];
      }
      if func != NoHandler {
        calls := calls + [(func, frame)];
      }
    }

    /** The length byte of `command_process`. */
    method StartFrame(junk: byte)
      requires Wired() && cmdBufI == -1 && rbRx.Contents() != []
      modifies `cmdBufI, `cmdBufLeft, `cmdBufLen, rbRx`readPos
      ensures Wired() && cmdBufI == 0 && cmdBufLeft == cmdBufLen as int + 1
      ensures [cmdBufLen] + rbRx.Contents() == old(rbRx.Contents())
    {
      cmdBufLen := rbRx.Getc(junk);
      cmdBufLeft := cmdBufLen as int + 1;
      cmdBufI := 0;
    }

    /** The `for` loop of `command_process`. */
    method TakeBytes(junk: byte, avail: nat) returns (i: nat)
      requires Valid() && cmdBufI != -1 && avail <= |rbRx.Contents()|
      modifies `cmdBufI, rbRx`readPos, cmdBuf
      ensures Wired() && 0 <= cmdBufI && cmdBufI + (cmdBufLeft - i) == cmdBufLen as int + 1
      ensures i == Min(avail, cmdBufLeft)
      ensures Partial() == old(Partial()) + old(rbRx.Contents())[..i]
      ensures rbRx.Contents() == old(rbRx.Contents())[i..]
    {
      i := 0;
      ghost var partial, input := Partial(), rbRx.Contents();
      while i < avail && i < cmdBufLeft
        invariant Wired() && 0 <= i <= avail && i <= cmdBufLeft
        invariant 0 <= cmdBufI && cmdBufI + (cmdBufLeft - i) == cmdBufLen as int + 1
        invariant rbRx.Contents() == input[i..]
        invariant Partial() == partial + input[..i]
      {
        ghost var sofar := Partial();
        var c := rbRx.Getc(junk);
        cmdBuf[cmdBufI] := c;
        cmdBufI := cmdBufI + 1;
        assert Partial() == sofar + [c];
        TakeOne(input, i, c, rbRx.Contents());
        Assoc(partial, input[..i], [c]);
        i := i + 1;
      }
    }

    /** The part of `command_process` that reads: the length byte when a frame starts, then the loop. */
    method Assemble(junk: byte, avail: nat) returns (i: nat, ghost taken: nat)
      requires Valid() && avail == |rbRx.Contents()| > 0
      modifies `cmdBufI, `cmdBufLeft, `cmdBufLen, rbRx`readPos, cmdBuf
      ensures Wired() && 0 <= cmdBufI && i <= cmdBufLeft && cmdBufI + (cmdBufLeft - i) == cmdBufLen as int + 1
      ensures 1 <= taken <= avail && (i < cmdBufLeft ==> taken == avail)
      ensures Partial() == old(Partial()) + old(rbRx.Contents())[..taken]
      ensures rbRx.Contents() == old(rbRx.Contents())[taken..]
    {
      ghost var partial, input := Partial(), rbRx.Contents();
      var left := avail;
      taken := 0;
      if cmdBufI == -1 {
        StartFrame(junk);
        left := left - 1;
        taken := 1;
        TakeOne(input, 0, cmdBufLen, rbRx.Contents());
      }
      assert Partial() == partial + input[..taken];
      assert rbRx.Contents() == input[taken..];
      i := TakeBytes(junk, left);
      assert input[..taken + i] == input[..taken] + input[taken..][..i];
      Assoc(partial, input[..taken], input[taken..][..i]);
      taken := taken + i;
    }

    /** The end of `command_process`: count down, and dispatch a complete frame. */
    method EndTick(i: nat) returns (outcome: Outcome)
      requires Wired() && 0 <= cmdBufI && i <= cmdBufLeft && cmdBufI + (cmdBufLeft - i) == cmdBufLen as int + 1
      modifies `cmdBufLeft, `cmdBufI, `connected, `calls, rbTx`writePos, rbTx.data
      ensures Wired() && (!outcome.AssertFailed? ==> Valid())
      ensures rbRx.Contents() == old(rbRx.Contents())
      ensures match outcome
              case Unfinished => i < old(cmdBufLeft) && Partial() == old(Partial()) && !HasFrame(Partial())
              case Dispatched(f) => old(Partial()) == Encode(f) && f.cmd < 128 && Partial() == []
              case AssertFailed(f) => old(Partial()) == Encode(f) && f.cmd >= 128
              case _ => false
      ensures outcome.Dispatched? ==>
        var func := cmdMap[outcome.frame.cmd];
        && calls == old(calls) + (if func.NoHandler? then [] else [(func, outcome.frame)])
        && connected == (if func.ConnectCmd? then true else if func.DisconnectCmd? then false else old(connected))
        && rbTx.Contents() == old(rbTx.Contents()) + Fitting(Reply(func), old(rbTx.size - 1 - |rbTx.Contents()|))
      ensures !outcome.Dispatched? ==>
        calls == old(calls) && connected == old(connected) && rbTx.Contents() == old(rbTx.Contents())
    {
      cmdBufLeft := cmdBufLeft - i;
      if cmdBufLeft != 0 {
        return Unfinished;
      }
      var cmd := cmdBuf[0];
      var frame := Frame(cmd, cmdBuf[1..1 + cmdBufLen as int]);
      assert Partial() == Encode(frame);
      if cmd >= 128 {
        return AssertFailed(frame);
      }
      var func := cmdMap[cmd];
      cmdBufI := -1;
      Call(func, frame);
      return Dispatched(frame);
    }

    /** `command_process`. */
    method CommandProcess(junk: byte) returns (outcome: Outcome, ghost taken: nat)
      requires Valid()
      modifies this, rbRx`readPos, rbTx`writePos, rbTx.data, cmdBuf
      ensures TickSpec(old(Partial()), old(rbRx.Contents()), taken, outcome, Partial())
      ensures Wired() && (!outcome.AssertFailed? ==> Valid())
      ensures rbRx.Contents() == old(rbRx.Contents())[taken..]
      ensures outcome.Dispatched? ==>
        var func := cmdMap[outcome.frame.cmd];
        && calls == old(calls) + (if func.NoHandler? then [] else [(func, outcome.frame)])
        && connected == (if func.ConnectCmd? then true else if func.DisconnectCmd? then false else old(connected))
        && rbTx.Contents() == old(rbTx.Contents()) + Fitting(Reply(func), old(rbTx.size - 1 - |rbTx.Contents()|))
      ensures outcome.Dispatched? && old(rbTx.size - 1 - |rbTx.Contents()|) >= 2 ==>
        var func := cmdMap[outcome.frame.cmd];
        && (func == ConnectCmd ==> rbTx.Contents() == old(rbTx.Contents()) + [0, 'c' as int])
        && (func == DisconnectCmd ==> rbTx.Contents() == old(rbTx.Contents()) + [0, 'd' as int])
        && (func == NoHandler ==> rbTx.Contents() == old(rbTx.Contents()) + [0, 'e' as int])
      ensures !outcome.Dispatched? ==>
        calls == old(calls) && connected == old(connected) && rbTx.Contents() == old(rbTx.Contents())
    {
      var avail := rbRx.AvailableRead();
      if avail == 0 {
        return NothingToRead, 0;
      }
      ghost var partial, input := Partial(), rbRx.Contents();
      var i;
      i, taken := Assemble(junk, avail);
      assert input[..taken] == input || i == cmdBufLeft;
      ghost var room := rbTx.size - 1 - |rbTx.Contents()|;
      outcome := EndTick(i);
      if outcome.Dispatched? && room >= 2 {
        ReplyInBytes(cmdMap[outcome.frame.cmd], room);
      }
    }
  }
}
