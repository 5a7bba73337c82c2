/** The memory layout of panda/common/memory.h and what START makes the M3 see of it. */
module MemoryMap {
  import opened Basics
  import opened Mmu

  datatype Region = Region(virt: Word, phys: Word, megabytes: nat) {
    function Bytes(): nat {
      megabytes * MB
    }

    predicate Contains(addr: int) {
      virt <= addr < virt + Bytes()
    }

    predicate Fits() {
      virt % MB == 0 && phys % MB == 0 && virt + Bytes() <= 0x1_0000_0000 && phys + Bytes() <= 0x1_0000_0000
    }
  }

  const FIRMWARE_REGION := 0x9E10_0000
  const FIRMWARE_LENGTH := 0x0020_0000

  const PROGRAM := Region(0, 0x9E10_0000, 2)
  const STACK := Region(0x0030_0000, PROGRAM.phys + PROGRAM.Bytes(), 1)
  const TX := Region(0x1000_0000, STACK.phys + STACK.Bytes(), 5)
  const RX := Region(0x1100_0000, TX.phys + TX.Bytes(), 5)
  const TRACE := Region(0x1200_0000, RX.phys + RX.Bytes(), 5)
  const PER := Region(0x4800_0000, 0x4800_0000, 16)
  const CFG := Region(0x4A00_0000, 0x4A00_0000, 16)
  const M3_PRIVATE := Region(0xE000_0000, 0xE000_0000, 1)

  /** In the order in which START maps them. */
  const REGIONS: seq<Region> := [PROGRAM, STACK, PER, CFG, M3_PRIVATE, TX, RX, TRACE]

  /** `QUADCOPTER_MAP_RANGE`. */
  function Mapped(t: Table, r: Region): Table {
    MappedRange(t, r.virt / MB, r.phys / MB, r.megabytes)
  }

  function MapAll(t: Table, rs: seq<Region>): Table
    decreases rs
  {
    if rs == [] then t else MapAll(Mapped(t, rs[0]), rs[1..])
  }

  const START_TABLE: Table := MapAll(EmptyTable(), REGIONS)

  lemma MappedTranslates(t: Table, r: Region, addr: Word)
    requires r.Fits()
    ensures Translate(Mapped(t, r), addr) ==
            if r.Contains(addr) then Some(r.phys + (addr - r.virt)) else Translate(t, addr)
  {
    var k, low, v, p := addr / MB, addr % MB, r.virt / MB, r.phys / MB;
    assert addr == k*MB + low && r.virt == v*MB && r.phys == p*MB;
    assert r.Contains(addr) <==> v <= k < v + r.megabytes;
    DistanceAhead(k, v);
    if r.Contains(addr) {
      assert Mapped(t, r)[k] == Section(p + (k - v));
      SectionTranslates(Mapped(t, r), addr, p + (k - v));
    } else {
      assert Mapped(t, r)[k] == t[k];
    }
  }

  lemma DistanceAhead(k: nat, v: nat)
    requires k < TABLE_WORDS && v < TABLE_WORDS
    ensures Distance(k, v) == if v <= k then k - v else k - v + TABLE_WORDS
  {
  }

  lemma SectionTranslates(t: Table, addr: Word, m: nat)
    requires m < TABLE_WORDS && t[addr / MB] == Section(m)
    ensures Translate(t, addr) == Some(m*MB + addr % MB)
  {
  }

  lemma {:induction false} OthersStayAsTheyWere(rs: seq<Region>, t: Table, addr: Word)
    requires forall r :: r in rs ==> r.Fits() && !r.Contains(addr)
    ensures Translate(MapAll(t, rs), addr) == Translate(t, addr)
  {
    if rs != [] {
      MappedTranslates(t, rs[0], addr);
      OthersStayAsTheyWere(rs[1..], Mapped(t, rs[0]), addr);
    }
  }

  /** The last region that contains an address decides where it goes. */
  lemma {:induction false} LastRegionDecides(rs: seq<Region>, t: Table, addr: Word, i: nat)
    requires i < |rs| && rs[i].Contains(addr)
    requires forall r :: r in rs ==> r.Fits()
    requires forall r :: r in rs[i+1..] ==> !r.Contains(addr)
    ensures Translate(MapAll(t, rs), addr) == Some(rs[i].phys + (addr - rs[i].virt))
  {
    var mapped := Mapped(t, rs[0]);
    if i == 0 {
      MappedTranslates(t, rs[0], addr);
      OthersStayAsTheyWere(rs[1..], mapped, addr);
    } else {
      assert rs[1..][i..] == rs[i+1..];
      LastRegionDecides(rs[1..], mapped, addr, i - 1);
    }
  }

  /** Where a region lies: the eight cases, in numbers of megabytes. */
  lemma Places(r: Region)
    requires r in REGIONS
    ensures var v, p, n := r.virt, r.phys, r.megabytes;
      || (v == 0x000*MB && p == 0x9E1*MB && n == 2) || (v == 0x003*MB && p == 0x9E3*MB && n == 1)
      || (v == 0x480*MB && p == 0x480*MB && n == 16) || (v == 0x4A0*MB && p == 0x4A0*MB && n == 16)
      || (v == 0xE00*MB && p == 0xE00*MB && n == 1) || (v == 0x100*MB && p == 0x9E4*MB && n == 5)
      || (v == 0x110*MB && p == 0x9E9*MB && n == 5) || (v == 0x120*MB && p == 0x9EE*MB && n == 5)
  {
  }

  lemma RegionsFit(r: Region)
    requires r in REGIONS
    ensures r.Fits()
  {
  }

  /** The regions overlap neither in what the M3 sees nor in what is behind it. */
  lemma RegionsAreApart(r: Region, r': Region)
    requires r in REGIONS && r' in REGIONS && r != r'
    ensures r.virt + r.Bytes() <= r'.virt || r'.virt + r'.Bytes() <= r.virt
    ensures r.phys + r.Bytes() <= r'.phys || r'.phys + r'.Bytes() <= r.phys
  {
  }

  /** Every byte of the eight regions is where memory.h puts it. */
  lemma RegionIsMapped(r: Region, addr: Word)
    requires r in REGIONS && r.Contains(addr)
    ensures Translate(START_TABLE, addr) == Some(r.phys + (addr - r.virt))
  {
    var i :| 0 <= i < |REGIONS| && REGIONS[i] == r;
    forall r' | r' in REGIONS
      ensures r'.Fits()
    {
      RegionsFit(r');
    }
    forall r' | r' in REGIONS[i+1..]
      ensures !r'.Contains(addr)
    {
      if r' != r {
        RegionsAreApart(r, r');
      } else {
        assert false;
      }
    }
    hide *;
    LastRegionDecides(REGIONS, EmptyTable(), addr, i);
  }

  /** Nothing else is mapped. */
  lemma NothingElseIsMapped(addr: Word)
    requires forall r :: r in REGIONS ==> !r.Contains(addr)
    ensures Translate(START_TABLE, addr) == None
  {
    forall r | r in REGIONS
      ensures r.Fits()
    {
      RegionsFit(r);
    }
    hide REGIONS;
    OthersStayAsTheyWere(REGIONS, EmptyTable(), addr);
  }

  lemma MappedByRegion(addr: Word) returns (r: Region)
    requires Translate(START_TABLE, addr).Some?
    ensures r in REGIONS && r.Contains(addr)
    ensures Translate(START_TABLE, addr) == Some(r.phys + (addr - r.virt))
  {
    if forall r :: r in REGIONS ==> !r.Contains(addr) {
      NothingElseIsMapped(addr);
    }
    r :| r in REGIONS && r.Contains(addr);
    RegionIsMapped(r, addr);
  }

  /** No two addresses of the M3 reach the same byte. */
  lemma MappingIsInjective(a: Word, b: Word)
    requires Translate(START_TABLE, a).Some? && Translate(START_TABLE, a) == Translate(START_TABLE, b)
    ensures a == b
  {
    var r := MappedByRegion(a);
    var r' := MappedByRegion(b);
    if r != r' {
      RegionsAreApart(r, r');
    }
  }

  /** The M3 cannot reach the table that maps it, nor the rest of that megabyte. */
  lemma TableIsOutOfReach(addr: Word)
    requires Translate(START_TABLE, addr).Some?
    ensures Translate(START_TABLE, addr).value / MB != MMU_TABLE_REGION / MB
  {
    var r := MappedByRegion(addr);
    Places(r);
  }

  /** The megabyte between the program and the stack is a guard: a stack that overflows faults. */
  lemma GuardIsUnmapped(addr: Word)
    requires PROGRAM.virt + PROGRAM.Bytes() <= addr < STACK.virt
    ensures Translate(START_TABLE, addr) == None
  {
    forall r | r in REGIONS
      ensures !r.Contains(addr)
    {
      Places(r);
    }
    NothingElseIsMapped(addr);
  }

  /** The whole map in numbers: program, stack, the three rings, the peripherals, the configuration and the private region;
      nothing else. */
  lemma MapInNumbers(addr: Word)
    ensures Translate(START_TABLE, addr) ==
      if addr < 0x0020_0000 then Some(0x9E10_0000 + addr)
      else if 0x0030_0000 <= addr < 0x0040_0000 then Some(0x9E30_0000 + (addr - 0x0030_0000))
      else if 0x1000_0000 <= addr < 0x1050_0000 then Some(0x9E40_0000 + (addr - 0x1000_0000))
      else if 0x1100_0000 <= addr < 0x1150_0000 then Some(0x9E90_0000 + (addr - 0x1100_0000))
      else if 0x1200_0000 <= addr < 0x1250_0000 then Some(0x9EE0_0000 + (addr - 0x1200_0000))
      else if 0x4800_0000 <= addr < 0x4900_0000 || 0x4A00_0000 <= addr < 0x4B00_0000 then Some(addr)
      else if 0xE000_0000 <= addr < 0xE010_0000 then Some(addr)
      else None
  {
    if r :| r in REGIONS && r.Contains(addr) {
      RegionIsMapped(r, addr);
      hide START_TABLE;
      Places(r);
    } else {
      NothingElseIsMapped(addr);
      hide START_TABLE;
      assert !PROGRAM.Contains(addr) && !STACK.Contains(addr) && !PER.Contains(addr) && !CFG.Contains(addr);
      assert !M3_PRIVATE.Contains(addr) && !TX.Contains(addr) && !RX.Contains(addr) && !TRACE.Contains(addr);
    }
  }

  /** The firmware device is the memory behind the program region, two megabytes. */
  lemma FirmwareIsProgram()
    ensures FIRMWARE_REGION == PROGRAM.phys == 0x9E10_0000
    ensures FIRMWARE_LENGTH == PROGRAM.Bytes() == 0x0020_0000
  {
  }
}
