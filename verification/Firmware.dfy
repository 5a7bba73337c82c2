/** The firmware loader of panda/kmod/firmware.c: a file that can be written while the M3 is stopped. */
module Firmware {
  import opened Basics
  import opened MemoryMap

  const EPERM := 1

  type Image = s: seq<byte> | |s| == FIRMWARE_LENGTH witness seq(FIRMWARE_LENGTH, i => 0)

  datatype FirmwareState = FirmwareState(enabled: bool, image: Image)

  /** The number of bytes `quadcopter_write` copies, in the source's widths: the position has 64 bits, the count 32. */
  function Clipped(pos: nat, count: nat): nat {
    if pos + count > FIRMWARE_LENGTH then U32(FIRMWARE_LENGTH - pos) else count
  }

  /** The clipping keeps a write inside the firmware if and only if it starts there. A file position is 0 on open, and a
      write from inside leaves it inside. */
  lemma ClippingWorksIff(pos: nat, count: nat)
    ensures pos + Clipped(pos, count) <= 0x0020_0000 <==> pos <= 0x0020_0000
    ensures pos <= 0x0020_0000 ==> Clipped(pos, count) == Min(count, 0x0020_0000 - pos)
  {
  }

  /** How many bytes a write at `pos` takes. */
  function Taken(s: FirmwareState, pos: nat, count: nat): nat
    requires pos <= FIRMWARE_LENGTH
  {
    if !s.enabled then 0 else Min(count, FIRMWARE_LENGTH - pos)
  }

  /** The loader after `buf` has been written at `pos`. */
  function Written(s: FirmwareState, pos: nat, buf: seq<byte>): FirmwareState
    requires pos <= FIRMWARE_LENGTH
  {
    var n := Taken(s, pos, |buf|);
    s.(image := s.image[..pos] + buf[..n] + s.image[pos + n..])
  }

  class Loader {
    var enabled: bool
    const image: array<byte>

    ghost predicate Valid() {
      image.Length == FIRMWARE_LENGTH
    }

    ghost function State(): FirmwareState
      requires Valid()
      reads this, image
    {
      FirmwareState(enabled, image[..])
    }

    /** `firmware_init`: loading is allowed until START. */
    constructor (memory: array<byte>)
      requires memory.Length == FIRMWARE_LENGTH
      ensures Valid() && image == memory && enabled
    {
      image := memory;
      enabled := true;
    }

    /** `quadcopter_write`. The position is that of the file, which starts at 0 and which only writes move. */
    method Write(buf: array<byte>, fPos: nat) returns (result: int, newPos: nat)
      requires Valid() && fPos <= FIRMWARE_LENGTH && buf != image
      modifies image
      ensures State() == Written(old(State()), fPos, buf[..])
      ensures result == if !enabled then -1 else Taken(old(State()), fPos, buf.Length)
      ensures newPos == fPos + Taken(old(State()), fPos, buf.Length)
    {
      if enabled {
        var count := buf.Length;
        if fPos + count > FIRMWARE_LENGTH {
          count := U32(FIRMWARE_LENGTH - fPos);
        }
        CopyFromUser(fPos, buf, count);
        return count, fPos + count;
      }
      assert image[..] == image[..fPos] + buf[..][..0] + image[fPos..];
      return -EPERM, fPos;
    }

    method CopyFromUser(to: nat, buf: array<byte>, count: nat)
      requires Valid() && to + count <= image.Length && count <= buf.Length && buf != image
      modifies image
      ensures image[..] == old(image[..])[..to] + buf[..][..count] + old(image[..])[to + count..]
    {
      var i := 0;
      while i < count
        invariant 0 <= i <= count
        invariant image[..] == old(image[..])[..to] + buf[..i] + old(image[..])[to + i..]
      {
        image[to + i] := buf[i];
        i := i + 1;
      }
      assert buf[..][..count] == buf[..count];
    }

    /** `firmware_enable`. */
    method Enable()
      requires Valid()
      modifies this`enabled
      ensures State() == old(State()).(enabled := true)
    {
      enabled := true;
    }

    /** `firmware_disable`. */
    method Disable()
      requires Valid()
      modifies this`enabled
      ensures State() == old(State()).(enabled := false)
    {
      enabled := false;
    }
  }

  /** What writing some pieces one after the other leaves, and where it leaves the file. */
  function WrittenAll(s: FirmwareState, pos: nat, pieces: seq<seq<byte>>): FirmwareState
    requires pos <= FIRMWARE_LENGTH
    decreases pieces
  {
    if pieces == [] then s
    else WrittenAll(Written(s, pos, pieces[0]), pos + Taken(s, pos, |pieces[0]|), pieces[1..])
  }

  /** The end of the file after a whole sequence of writes. */
  function EndOf(s: FirmwareState, pos: nat, pieces: seq<seq<byte>>): nat
    requires pos <= FIRMWARE_LENGTH
    decreases pieces
  {
    if pieces == [] then pos else EndOf(Written(s, pos, pieces[0]), pos + Taken(s, pos, |pieces[0]|), pieces[1..])
  }

  lemma WriteInParts(s: FirmwareState, pos: nat, a: seq<byte>, b: seq<byte>)
    requires pos <= FIRMWARE_LENGTH
    ensures var pos' := pos + Taken(s, pos, |a|);
      Written(Written(s, pos, a), pos', b) == Written(s, pos, a + b) &&
      Taken(s, pos, |a|) + Taken(Written(s, pos, a), pos', |b|) == Taken(s, pos, |a + b|)
  {
    var n, m := Taken(s, pos, |a|), Taken(s, pos, |a + b|);
    SpliceInParts(s.image, pos, a[..n], b[..m - n]);
    assert (a + b)[..m] == a[..n] + b[..m - n];
  }

  lemma SpliceInParts(image: seq<byte>, pos: nat, a: seq<byte>, b: seq<byte>)
    requires pos + |a| + |b| <= |image|
    ensures var first := image[..pos] + a + image[pos + |a|..];
      first[..pos + |a|] + b + first[pos + |a| + |b|..] == image[..pos] + (a + b) + image[pos + |a| + |b|..]
  {
    var first := image[..pos] + a + image[pos + |a|..];
    assert first[..pos + |a|] == image[..pos] + a;
    assert first[pos + |a| + |b|..] == image[pos + |a| + |b|..];
  }

  /** However a program is cut into writes, what lands in memory is the program, as far as it fits. */
  lemma {:induction false} LoadingIgnoresPieces(s: FirmwareState, pos: nat, pieces: seq<seq<byte>>)
    requires pos <= FIRMWARE_LENGTH
    ensures WrittenAll(s, pos, pieces) == Written(s, pos, Concat(pieces))
    ensures EndOf(s, pos, pieces) == pos + Taken(s, pos, |Concat(pieces)|)
    decreases pieces
  {
    if pieces == [] {
      assert s.image == s.image[..pos] + [] + s.image[pos..];
    } else {
      var pos' := pos + Taken(s, pos, |pieces[0]|);
      LoadingIgnoresPieces(Written(s, pos, pieces[0]), pos', pieces[1..]);
      WriteInParts(s, pos, pieces[0], Concat(pieces[1..]));
    }
  }
}
