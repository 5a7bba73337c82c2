/** The first-level translation table of the M3 and its reset bits, panda/kmod/mmu.c. */
module Mmu {
  import opened Basics

  type Word = w: int | 0 <= w < 0x1_0000_0000

  const MB := 0x10_0000
  const TABLE_WORDS := 4096
  const MMU_TABLE_REGION: Word := 0x9E00_0000
  /** `CNTL_TWLENABLE | CNTL_MMUENABLE` */
  const TABLE_WALK_ENABLED: Word := 6

  type Table = t: seq<Word> | |t| == TABLE_WORDS witness seq(TABLE_WORDS, i => 0)

  /** RM_MPU_M3_RSTCTRL, bit by bit: bit 0 holds the processor in reset (M3_CPU1_RESET), bit 2 its MMU (M3_MMU_RESET). */
  datatype ResetControl = ResetControl(cpu1Reset: bool, bit1: bool, mmuReset: bool, rest: nat)

  /** The registers and the table, as the M3 finds them. */
  datatype MmuState = MmuState(table: Table, clkctrl: Word, clkstctrl: Word, rstctrl: ResetControl, ttb: Word, cntl: Word)

  function WithTable(m: MmuState, t: Table): MmuState {
    m.(table := t)
  }

  function EmptyTable(): Table {
    seq(TABLE_WORDS, i => 0)
  }

  /** A section descriptor for physical megabyte `m`: `m << 20 | 0xC02`. */
  function Section(m: nat): Word
    requires m < TABLE_WORDS
  {
    m * MB + 0xC02
  }

  /** What the MMU makes of a virtual address: the low bits of the table entry say whether it is a section. */
  function Translate(table: Table, addr: Word): Option<Word> {
    var entry := table[addr / MB];
    if entry % MB == 0xC02 then Some(entry - 0xC02 + addr % MB) else None
  }

  /** The same in numbers: bits 0 to 19 of an entry are 0xC02 for a section, the others are its address. */
  lemma TranslateInNumbers(table: Table, addr: Word)
    ensures var entry := table[addr / 0x10_0000];
      Translate(table, addr) ==
        if entry % 0x10_0000 == 0xC02 then Some(entry / 0x10_0000 * 0x10_0000 + addr % 0x10_0000) else None
  {
  }

  /** The MMU is out of reset, switched on (bit 1 of MMU_CNTL), and walks (bit 2) the table at 0x9E000000. */
  predicate Walks(m: MmuState) {
    !m.rstctrl.mmuReset && m.cntl / 2 % 2 == 1 && m.cntl / 4 % 2 == 1 && m.ttb == 0x9E00_0000
  }

  /** What is behind an address of the M3. An MMU that does not walk the table lets the address through as it is. */
  function View(m: MmuState, addr: Word): Option<Word> {
    if Walks(m) then Translate(m.table, addr) else Some(addr)
  }

  /** The distance from megabyte `from` up to megabyte `k`, around the end of the 32-bit address space. */
  function Distance(k: int, from: int): nat {
    (k - from) % TABLE_WORDS
  }

  /** The table after a whole range has been mapped, entry by entry. */
  function MappedRange(t: Table, vmega: nat, pmega: nat, count: nat): Table {
    seq(TABLE_WORDS, k requires 0 <= k < TABLE_WORDS =>
      if Distance(k, vmega) < count then Section((pmega + Distance(k, vmega)) % TABLE_WORDS) else t[k])
  }

  lemma NextInRange(k: nat, vmega: nat, i: nat)
    requires k < TABLE_WORDS && i < TABLE_WORDS
    ensures Distance(k, vmega) == i <==> k == (vmega + i) % TABLE_WORDS
  {
  }

  /** `(a + (i << 20))`, cut to 32 bits, lies `i` megabytes further on. */
  lemma MegabyteOfSum(a: Word, i: nat)
    ensures U32(a + i * MB) / MB == (a / MB + i) % TABLE_WORDS
  {
  }

  lemma OneMore(t: Table, vmega: nat, pmega: nat, i: nat)
    requires i < TABLE_WORDS
    ensures MappedRange(t, vmega, pmega, i + 1) ==
            MappedRange(t, vmega, pmega, i)[(vmega + i) % TABLE_WORDS := Section((pmega + i) % TABLE_WORDS)]
  {
    forall k | 0 <= k < TABLE_WORDS {
      NextInRange(k, vmega, i);
    }
  }

  class Mmu {
    const table: array<Word>
    var clkctrl: Word
    var clkstctrl: Word
    var rstctrl: ResetControl
    var ttb: Word
    var cntl: Word

    ghost predicate Valid() {
      table.Length == TABLE_WORDS
    }

    ghost function State(): MmuState
      requires Valid()
      reads this, table
    {
      MmuState(table[..], clkctrl, clkstctrl, rstctrl, ttb, cntl)
    }

    /** `mmu_init`, which runs when the module is loaded: the registers keep what they hold. */
    constructor (found: MmuState)
      ensures Valid() && fresh(table)
      ensures State() == WithTable(found, EmptyTable())
      ensures forall k :: 0 <= k < 4096 ==> table[k] == 0
    {
      table := new Word[TABLE_WORDS](i => 0);
      clkctrl, clkstctrl := found.clkctrl, found.clkstctrl;
      rstctrl, ttb, cntl := found.rstctrl, found.ttb, found.cntl;
    }

    /** `mmu_init`, when START runs it again. */
    method Init()
      requires Valid()
      modifies table
      ensures State() == WithTable(old(State()), EmptyTable())
      ensures forall k :: 0 <= k < 4096 ==> table[k] == 0
    {
      var i := 0;
      while i < table.Length
        invariant 0 <= i <= table.Length
        invariant forall k :: 0 <= k < i ==> table[k] == 0
      {
        table[i] := 0;
        i := i + 1;
      }
      assert table[..] == EmptyTable();
    }

    /** `mmu_map`. The masks and shifts are written as quotients and remainders. */
    method Map(virt: Word, phys: Word)
      requires Valid()
      modifies table
      ensures State() == WithTable(old(State()), old(table[..])[virt / MB := Section(phys / MB)])
    {
      table[(virt - virt % MB) / MB] := phys - phys % MB + 0xC02;
    }

    /** `mmu_map_range`. The source shifts a signed `i` by 20, which a count above 2048 would overflow. */
    method MapRange(vstart: Word, pstart: Word, count: nat)
      requires Valid() && count <= 2048
      modifies table
      ensures State() == WithTable(old(State()), MappedRange(old(table[..]), vstart / MB, pstart / MB, count))
    {
      ghost var before := table[..];
      var i := 0;
      while i < count
        invariant 0 <= i <= count
        invariant table[..] == MappedRange(before, vstart / MB, pstart / MB, i)
      {
        var vcur := U32(vstart + i * MB);
        var pcur := U32(pstart + i * MB);
        MegabyteOfSum(vstart, i);
        MegabyteOfSum(pstart, i);
        OneMore(before, vstart / MB, pstart / MB, i);
        Map(vcur, pcur);
        i := i + 1;
      }
    }

    /** `mmu_enable`. */
    method Enable()
      requires Valid()
      modifies this`clkctrl, this`clkstctrl, this`rstctrl, this`ttb, this`cntl
      ensures State() == MmuState(old(table[..]), 1, 2, old(rstctrl).(mmuReset := false), 0x9E00_0000, 6)
      ensures Walks(State())
    {
      clkctrl := 1;
      clkstctrl := 2;
      var reg := rstctrl;
      rstctrl := reg.(mmuReset := false);
      ttb := MMU_TABLE_REGION;
      cntl := TABLE_WALK_ENABLED;
    }

    /** `mmu_enable_m3`. */
    method EnableM3()
      requires Valid()
      modifies this`rstctrl
      ensures State() == old(State()).(rstctrl := old(rstctrl).(cpu1Reset := false))
    {
      var reg := rstctrl;
      rstctrl := reg.(cpu1Reset := false);
    }

    /** `mmu_disable_m3`. */
    method DisableM3()
      requires Valid()
      modifies this`rstctrl
      ensures State() == old(State()).(rstctrl := old(rstctrl).(cpu1Reset := true))
    {
      var reg := rstctrl;
      rstctrl := reg.(cpu1Reset := true);
    }
  }
}
