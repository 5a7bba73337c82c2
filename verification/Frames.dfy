/** The command frames both processors exchange: a length byte, a command byte, then `length` payload bytes. */
module Frames {
  import opened Basics

  type Payload = p: seq<byte> | |p| <= 255

  datatype Frame = Frame(cmd: byte, payload: Payload)

  /** The bytes of `sendCommand` (host) and `command_send` (firmware). */
  function Encode(f: Frame): (b: seq<byte>)
    ensures |b| == |f.payload| + 2
  {
    [|f.payload|, f.cmd] + f.payload
  }

  function EncodeAll(fs: seq<Frame>): seq<byte> {
    if fs == [] then [] else Encode(fs[0]) + EncodeAll(fs[1..])
  }

  /** The number of bytes of the frame a stream starts with. */
  function FrameSize(b: seq<byte>): nat
    requires |b| >= 1
  {
    b[0] as nat + 2
  }

  /** A stream starts with a whole frame once the length byte and `length + 1` more bytes are there. */
  predicate HasFrame(b: seq<byte>) {
    |b| >= 1 && |b| >= FrameSize(b)
  }

  function FirstFrame(b: seq<byte>): (f: Frame)
    requires HasFrame(b)
  {
    Frame(b[1], b[2..FrameSize(b)])
  }

  datatype Parsed = Parsed(frames: seq<Frame>, rest: seq<byte>)

  /** The reference parser: every whole frame of a stream, and the bytes of the unfinished one. */
  function Parse(b: seq<byte>): Parsed
    decreases |b|
  {
    if HasFrame(b) then
      var p := Parse(b[FrameSize(b)..]);
      Parsed([FirstFrame(b)] + p.frames, p.rest)
    else
      Parsed([], b)
  }

  lemma {:induction false} EncodeAllAppend(fs: seq<Frame>, gs: seq<Frame>)
    ensures EncodeAll(fs + gs) == EncodeAll(fs) + EncodeAll(gs)
  {
    if fs == [] {
      assert fs + gs == gs;
    } else {
      assert (fs + gs)[1..] == fs[1..] + gs;
      EncodeAllAppend(fs[1..], gs);
    }
  }

  lemma EncodeAllSnoc(fs: seq<Frame>, f: Frame)
    ensures EncodeAll(fs + [f]) == EncodeAll(fs) + Encode(f)
  {
    EncodeAllAppend(fs, [f]);
    assert EncodeAll([f]) == Encode(f) + [];
  }

  lemma EncodeFirst(f: Frame, fs: seq<Frame>)
    ensures EncodeAll([f] + fs) == Encode(f) + EncodeAll(fs)
  {
    assert ([f] + fs)[1..] == fs;
  }

  lemma FirstFrameIsEncoded(b: seq<byte>)
    requires HasFrame(b)
    ensures b == Encode(FirstFrame(b)) + b[FrameSize(b)..]
  {
    assert b[..FrameSize(b)] == [b[0], b[1]] + b[2..FrameSize(b)];
  }

  /** Nothing is lost by parsing. */
  lemma {:induction false} ParseThenEncode(b: seq<byte>)
    ensures EncodeAll(Parse(b).frames) + Parse(b).rest == b
    ensures !HasFrame(Parse(b).rest)
    decreases |b|
  {
    if HasFrame(b) {
      var rest := b[FrameSize(b)..];
      var p := Parse(rest);
      ParseThenEncode(rest);
      FirstFrameIsEncoded(b);
      EncodeFirst(FirstFrame(b), p.frames);
      hide Encode, FirstFrame;
      Assoc(Encode(FirstFrame(b)), EncodeAll(p.frames), p.rest);
    } else {
      assert EncodeAll([]) + b == b;
    }
  }

  /** The encoding is uniquely decodable, whatever incomplete bytes follow. */
  lemma {:induction false} EncodeThenParse(fs: seq<Frame>, tail: seq<byte>)
    requires !HasFrame(tail)
    ensures Parse(EncodeAll(fs) + tail) == Parsed(fs, tail)
  {
    var b := EncodeAll(fs) + tail;
    if fs == [] {
      assert b == tail;
    } else {
      var k := |fs[0].payload| + 2;
      assert b == Encode(fs[0]) + (EncodeAll(fs[1..]) + tail);
      assert b[k..] == EncodeAll(fs[1..]) + tail;
      assert b[2..k] == fs[0].payload;
      EncodeThenParse(fs[1..], tail);
    }
  }

  /** Where a stream is cut does not matter: parse the first part, then what it left with the second. */
  lemma ParseInParts(a: seq<byte>, b: seq<byte>)
    ensures Parse(a + b) ==
      Parsed(Parse(a).frames + Parse(Parse(a).rest + b).frames, Parse(Parse(a).rest + b).rest)
  {
    var p := Parse(a);
    var q := Parse(p.rest + b);
    ParseThenEncode(a);
    ParseThenEncode(p.rest + b);
    EncodeAllAppend(p.frames, q.frames);
    Assoc(EncodeAll(p.frames), p.rest, b);
    Assoc(EncodeAll(p.frames), EncodeAll(q.frames), q.rest);
    EncodeThenParse(p.frames + q.frames, q.rest);
  }

  /** Frames decoded from a prefix of an encoding are a prefix of the frames encoded. */
  lemma {:induction false} DecodedPrefix(got: seq<Frame>, partial: seq<byte>, sent: seq<Frame>)
    requires IsPrefix(EncodeAll(got) + partial, EncodeAll(sent))
    ensures IsPrefix(got, sent)
  {
    if got != [] {
      assert sent != [];
      var a, b := EncodeAll(got) + partial, EncodeAll(sent);
      assert a[0] == b[0] && a[1] == b[1];
      var k := FrameSize(a);
      assert a == Encode(got[0]) + (EncodeAll(got[1..]) + partial);
      assert Encode(got[0]) == a[..k] == b[..k] == Encode(sent[0]);
      assert got[0].payload == Encode(got[0])[2..] == Encode(sent[0])[2..] == sent[0].payload;
      assert EncodeAll(got[1..]) + partial == a[k..] == b[k..][..|a| - k];
      DecodedPrefix(got[1..], partial, sent[1..]);
      assert got == [got[0]] + got[1..] && sent == [sent[0]] + sent[1..];
    }
  }
}
