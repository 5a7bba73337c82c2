/** The single-producer single-consumer ring of panda/common/ringbuf.c, called from one side at a time.
    The interleaved form is in SharedRing.dfy; both use the index functions below. */
module Ring {
  import opened Basics

  /** `ringbuf_available_read` on the values it loaded. */
  function Fill(size: nat, w: nat, r: nat): (n: nat)
    requires w < size && r < size
    ensures n < size
  {
    if w > r then w - r
    else if w < r then size - (r - w)
    else 0
  }

  /** `ringbuf_available_write` on the values it loaded. */
  function Room(size: nat, w: nat, r: nat): (n: nat)
    requires w < size && r < size
    ensures n < size
  {
    if r > w then r - w - 1
    else if r < w then size - (w - r) - 1
    else size - 1
  }

  /** The cell holding the byte `i` places after position `base`. */
  function Phys(size: nat, base: nat, i: nat): (p: nat)
    requires base < size && i < size
    ensures p < size
  {
    if base + i >= size then base + i - size else base + i
  }

  /** How many of `n` bytes starting at `pos` the first copy moves. */
  function FirstPart(size: nat, pos: nat, n: nat): (k: nat)
    requires pos < size && n < size
    ensures k <= n
  {
    if pos + n >= size then size - pos else n
  }

  /** The bytes between the two positions, oldest first. */
  function Unread(size: nat, data: seq<byte>, w: nat, r: nat): (q: seq<byte>)
    requires |data| == size && w < size && r < size
    ensures |q| == Fill(size, w, r)
  {
    seq(Fill(size, w, r), i requires 0 <= i < Fill(size, w, r) => data[Phys(size, r, i)])
  }

  /** Free and used cells always add up to one less than the ring: one cell stays empty. */
  lemma FillPlusRoom(size: nat, w: nat, r: nat)
    requires w < size && r < size
    ensures Fill(size, w, r) + Room(size, w, r) == size - 1
    ensures Phys(size, r, Fill(size, w, r)) == w
    ensures forall k: nat :: k < size && Phys(size, r, k) == w ==> k == Fill(size, w, r)
  {
  }

  /** `data` after one `memcpy` of `src` to offset `at`. */
  function Splice(data: seq<byte>, at: nat, src: seq<byte>): (d: seq<byte>)
    requires at + |src| <= |data|
    ensures |d| == |data|
    ensures forall k :: 0 <= k < |d| ==> d[k] == if at <= k < at + |src| then src[k - at] else data[k]
  {
    data[..at] + src + data[at + |src|..]
  }

  /** Once the `|bytes|` cells from `w` on hold `bytes`, moving `w` past them appends `bytes`. */
  lemma MovingWriteAppends(size: nat, mem: seq<byte>, w: nat, r: nat, bytes: seq<byte>)
    requires |mem| == size && w < size && r < size
    requires |bytes| <= Room(size, w, r)
    requires forall i: nat :: i < |bytes| ==> mem[Phys(size, w, i)] == bytes[i]
    ensures Fill(size, Phys(size, w, |bytes|), r) == Fill(size, w, r) + |bytes|
    ensures Unread(size, mem, Phys(size, w, |bytes|), r) == Unread(size, mem, w, r) + bytes
  {
  }

  /** One copy that does not run over the end of the ring, followed by moving `w` past it, appends `bytes`. */
  lemma CopyAppends(size: nat, data: seq<byte>, w: nat, r: nat, bytes: seq<byte>)
    requires |data| == size && w < size && r < size
    requires |bytes| <= Room(size, w, r) && w + |bytes| <= size
    ensures Fill(size, Phys(size, w, |bytes|), r) == Fill(size, w, r) + |bytes|
    ensures Unread(size, Splice(data, w, bytes), Phys(size, w, |bytes|), r) == Unread(size, data, w, r) + bytes
  {
  }

  /** A copy up to the end of the ring and one from its start append both parts. */
  lemma WrappedCopyAppends(size: nat, data: seq<byte>, w: nat, r: nat, bytes: seq<byte>, first: nat)
    requires |data| == size && w < size && r < size
    requires first == size - w <= |bytes| <= Room(size, w, r)
    ensures var after := Splice(Splice(data, w, bytes[..first]), 0, bytes[first..]);
      Unread(size, after, |bytes| - first, r) == Unread(size, data, w, r) + bytes
    ensures first == |bytes| ==> Splice(Splice(data, w, bytes[..first]), 0, bytes[first..]) == Splice(data, w, bytes)
  {
  }

  /** Copying `n <= Fill` bytes from `r` on and then moving `r` past them takes the oldest `n`. */
  lemma ReadTakes(size: nat, data: seq<byte>, w: nat, r: nat, n: nat)
    requires |data| == size && w < size && r < size
    requires n <= Fill(size, w, r)
    ensures Fill(size, w, Phys(size, r, n)) == Fill(size, w, r) - n
    ensures Unread(size, data, w, Phys(size, r, n)) == Unread(size, data, w, r)[n..]
  {
  }

  /** The one or two copies of `ringbuf_read` deliver the oldest `n` bytes. */
  lemma CopiesAreOldest(size: nat, data: seq<byte>, w: nat, r: nat, n: nat)
    requires |data| == size && w < size && r < size
    requires n <= Fill(size, w, r)
    ensures r + n <= size ==> Unread(size, data, w, r)[..n] == data[r..r + n]
    ensures r + n > size ==> Unread(size, data, w, r)[..n] == data[r..size] + data[0..n - (size - r)]
  {
  }

  class RingBuffer {
    const size: nat
    var writePos: nat
    var readPos: nat
    const data: array<byte>

    ghost predicate Valid()
      reads this, data
    {
      && 1 <= size < 0x8000_0000   // every index sum stays inside uint32_t and every count inside int
      && data.Length == size
      && writePos < size
      && readPos < size
    }

    ghost function Contents(): (q: seq<byte>)
      requires Valid()
      reads this, data
      ensures |q| == Fill(size, writePos, readPos)
    {
      Unread(size, data[..], writePos, readPos)
    }

    /** `ringbuf_init`: `bytes` counts the two position words as well as the data. */
    constructor (bytes: nat)
      requires 8 < bytes < 0x8000_0000
      ensures Valid() && fresh(data)
      ensures size == bytes - 8
      ensures Contents() == []
    {
      size := U32(bytes - 8);
      data := new byte[bytes - 8](_ => 0);
      writePos := 0;
      readPos := 0;
    }

    method AvailableRead() returns (n: nat)
      requires Valid()
      ensures n == |Contents()|
    {
      var write := writePos;
      var read := readPos;
      if write > read {
        n := U32(write - read);
      } else if write < read {
        n := U32(size - U32(read - write));
      } else {
        n := 0;
      }
    }

    method AvailableWrite() returns (n: nat)
      requires Valid()
      ensures n == size - 1 - |Contents()|
    {
      var read := readPos;
      var write := writePos;
      if read > write {
        n := U32(U32(read - write) - 1);
      } else if read < write {
        n := U32(U32(size - U32(write - read)) - 1);
      } else {
        n := U32(size - 1);
      }
    }

    /** `memcpy_toio`. */
    method CopyIn(at: nat, src: seq<byte>)
      requires at + |src| <= data.Length
      modifies data
      ensures data[..] == Splice(old(data[..]), at, src)
    {
      forall i | 0 <= i < |src| {
        data[at + i] := src[i];
      }
    }

    /** `memcpy_fromio`. */
    method CopyOut(at: nat, n: nat) returns (out: seq<byte>)
      requires at + n <= data.Length
      ensures out == data[..][at..at + n]
    {
      out := data[at..at + n];
    }

    /** `ringbuf_write`: append as much of `buf[..count]` as fits. */
    method Write(buf: seq<byte>, count: nat) returns (n: nat)
      requires Valid() && count <= |buf|
      modifies `writePos, data
      ensures Valid()
      ensures n == Min(count, old(size - 1 - |Contents()|))
      ensures Contents() == old(Contents()) + buf[..n]
    {
      var write := writePos;
      var avail := AvailableWrite();
      n := if count > avail then avail else count;
      var bytes := buf[..n];

      if U32(write + n) >= size {
        var first := U32(size - write);
        WrappedCopyAppends(size, data[..], write, readPos, bytes, first);
        CopyIn(write, bytes[..first]);
        if n - first > 0 {
          CopyIn(0, bytes[first..]);
        }
        write := U32(n - first);
      } else {
        CopyAppends(size, data[..], write, readPos, bytes);
        CopyIn(write, bytes);
        write := U32(write + n);
      }
      writePos := write;
    }

    /** `ringbuf_read`: take up to `count` bytes; `out` is what reached the caller's buffer. */
    method Read(count: nat) returns (n: nat, out: seq<byte>)
      requires Valid()
      modifies `readPos
      ensures Valid()
      ensures n == Min(count, old(|Contents()|))
      ensures out == old(Contents())[..n]
      ensures Contents() == old(Contents())[n..]
    {
      var read := readPos;
      var avail := AvailableRead();
      n := if count > avail then avail else count;
      ghost var mem, r := data[..], readPos;
      CopiesAreOldest(size, mem, writePos, r, n);
      ReadTakes(size, mem, writePos, r, n);

      if U32(read + n) >= size {
        var first := U32(size - read);
        out := CopyOut(read, first);
        if n - first > 0 {
          var rest := CopyOut(0, n - first);
          out := out + rest;
        }
        read := U32(n - first);
      } else {
        out := CopyOut(read, n);
        read := U32(read + n);
      }
      assert read == Phys(size, r, n);
      readPos := read;
    }

    /** `ringbuf_getc`; the source leaves the result undefined on an empty ring, here `junk`. */
    method Getc(junk: byte) returns (c: byte)
      requires Valid()
      modifies `readPos
      ensures Valid()
      ensures old(Contents()) == [] ==> c == junk && Contents() == []
      ensures old(Contents()) != [] ==> [c] + Contents() == old(Contents())
    {
      var n, out := Read(1);
      c := if n == 0 then junk else out[0];
    }

    /** `ringbuf_putc`: silently drops the byte when the ring is full. */
    method Putc(c: byte)
      requires Valid()
      modifies `writePos, data
      ensures Valid()
      ensures Contents() == old(Contents()) + (if |old(Contents())| < size - 1 then [c] else [])
    {
      var n := Write([c], 1);
    }
  }
}
