/** The read and write entry points of the control device, panda/kmod/main.c, with the other processor idle.
    Channel.dfy runs the write loop against a processor that keeps reading, ReadChannel.dfy the read loop against one
    that keeps writing. */
module Driver {
  import opened Basics
  import opened Ring

  const CHUNK := 512

  /** `quadcopter_write`: hand `buf` to the ring in chunks of at most 512 bytes, stopping at the first short one. */
  method QuadcopterWrite(rb: RingBuffer, buf: seq<byte>) returns (writeCount: nat)
    requires rb.Valid()
    modifies rb`writePos, rb.data
    ensures rb.Valid()
    ensures writeCount == Min(|buf|, old(rb.size - 1 - |rb.Contents()|))
    ensures rb.Contents() == old(rb.Contents()) + buf[..writeCount]
  {
    var count := |buf|;
    writeCount := 0;
    var countLeft: nat := count;
    ghost var before := rb.Contents();
    assert before == before + buf[..0];

    while writeCount < count
      invariant rb.Valid()
      invariant writeCount + countLeft == count
      invariant rb.Contents() == before + buf[..writeCount]
      decreases countLeft
    {
      var toWrite := if countLeft > CHUNK then CHUNK else countLeft;
      countLeft := countLeft - toWrite;
      var kbuf := buf[writeCount..writeCount + toWrite];
      var rbCount := rb.Write(kbuf, toWrite);
      assert buf[..writeCount] + kbuf[..rbCount] == buf[..writeCount + rbCount];
      Assoc(before, buf[..writeCount], kbuf[..rbCount]);
      writeCount := writeCount + rbCount;
      if rbCount < toWrite {
        break;
      }
    }
  }

  /** What `quadcopter_read` asks the ring for in all: it never asks for less than a whole chunk. */
  function WholeChunks(count: nat): nat {
    (count + CHUNK - 1) / CHUNK * CHUNK
  }

  /** `quadcopter_read`: `delivered` is everything copied to the caller's buffer. */
  method QuadcopterRead(rb: RingBuffer, count: nat) returns (readCount: nat, delivered: seq<byte>)
    requires rb.Valid()
    modifies rb`readPos
    ensures rb.Valid()
    ensures readCount == Min(old(|rb.Contents()|), WholeChunks(count))
    ensures delivered == old(rb.Contents())[..readCount]
    ensures rb.Contents() == old(rb.Contents())[readCount..]
  {
    readCount := 0;
    delivered := [];
    ghost var before := rb.Contents();

    while readCount < count
      invariant rb.Valid()
      invariant readCount <= |before|
      invariant delivered == before[..readCount]
      invariant rb.Contents() == before[readCount..]
      invariant readCount % CHUNK == 0 || readCount == |before|
      invariant readCount <= WholeChunks(count)
      decreases |before| - readCount
    {
      var rbCount, kbuf := rb.Read(CHUNK);
      if rbCount == 0 {
        break;
      }
      delivered := delivered + kbuf;
      readCount := readCount + rbCount;
    }
  }

  /** A reader that asks for `count` bytes of an idle ring gets fewer than `count + 512`. */
  lemma ReadOvershootIsBounded(fill: nat, count: nat)
    ensures count > 0 ==> Min(fill, WholeChunks(count)) < count + CHUNK
    ensures count == 0 ==> WholeChunks(count) == 0
  {
  }

  /** `quadcopter_read` may copy more bytes than its caller asked for. */
  lemma ReadCanOvershoot()
    ensures Min(2, WholeChunks(1)) == 2 > 1
  {
  }

  /** With an idle writer it stays within the caller's buffer exactly when `count` is a multiple of 512 or the ring holds
      no more. ReadOvershoot.dfy has the condition for a writer that goes on. */
  lemma ReadStaysWithinBuffer(fill: nat, count: nat)
    ensures Min(fill, WholeChunks(count)) <= count <==> fill <= count || count % CHUNK == 0
  {
  }
}
