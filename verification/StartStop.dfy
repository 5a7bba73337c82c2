/** Starting and stopping the M3, panda/kmod/main.c, action by action: after each the M3, the other processor, may observe
    the board. Clearing the table, mapping one region and enabling the MMU are one action each although they are several
    register writes: none of those writes touches the processor's reset bit, so an M3 in reset sees none of them, and one
    that is running is unsafe as soon as the table is being cleared. System calls are serialised. */
module StartStop {
  import opened Basics
  import opened Mmu
  import opened MemoryMap
  import opened Firmware

  /** `files` are the positions of the open firmware files. */
  datatype Board = Board(mmu: MmuState, firmware: FirmwareState, files: seq<nat>)

  datatype Action =
    | ClearTable
    | MapRegion(region: Region)
    | EnableMmu
    | LockFirmware
    | ReleaseM3
    | HoldM3
    | UnlockFirmware
    | OpenFile
    | WriteFile(file: nat, buf: seq<byte>)
    | StoreByte(at: Word, value: byte)

  /** What can happen: system calls, and the running M3 storing a byte at one of its addresses. */
  datatype Call =
    | Start
    | Stop
    | UnknownIoctl
    | Open
    | Write(file: nat, buf: seq<byte>)
    | M3Stores(at: Word, value: byte)

  function EnabledMmu(m: MmuState): MmuState {
    MmuState(m.table, 1, 2, m.rstctrl.(mmuReset := false), MMU_TABLE_REGION, TABLE_WALK_ENABLED)
  }

  function Apply(s: Board, a: Action): (r: Board)
    requires FilesInside(s)
    ensures FilesInside(r)
  {
    match a
    case ClearTable => Board(WithTable(s.mmu, EmptyTable()), s.firmware, s.files)
    case MapRegion(r) => Board(WithTable(s.mmu, Mapped(s.mmu.table, r)), s.firmware, s.files)
    case EnableMmu => Board(EnabledMmu(s.mmu), s.firmware, s.files)
    case LockFirmware => Board(s.mmu, Allowed(s.firmware, false), s.files)
    case UnlockFirmware => Board(s.mmu, Allowed(s.firmware, true), s.files)
    case ReleaseM3 => Board(WithCpuReset(s.mmu, false), s.firmware, s.files)
    case HoldM3 => Board(WithCpuReset(s.mmu, true), s.firmware, s.files)
    case OpenFile => Board(s.mmu, s.firmware, s.files + [0])
    case WriteFile(f, buf) =>
      if f < |s.files| then
        Board(s.mmu, Written(s.firmware, s.files[f], buf),
              s.files[f := s.files[f] + Taken(s.firmware, s.files[f], |buf|)])
      else s
    case StoreByte(at, value) =>
      if Running(s) then Board(s.mmu, Stored(s.firmware, View(s.mmu, at), value), s.files) else s
  }

  /** A store of the M3, as far as it concerns the image. */
  function Stored(f: FirmwareState, phys: Option<int>, value: byte): FirmwareState {
    if phys.Some? && FIRMWARE_REGION <= phys.value < FIRMWARE_REGION + FIRMWARE_LENGTH then
      FirmwareState(f.enabled, f.image[phys.value - FIRMWARE_REGION := value])
    else f
  }

  function Allowed(f: FirmwareState, enabled: bool): FirmwareState {
    FirmwareState(enabled, f.image)
  }

  function WithCpuReset(m: MmuState, reset: bool): MmuState {
    m.(rstctrl := m.rstctrl.(cpu1Reset := reset))
  }

  predicate FilesInside(s: Board) {
    forall i :: 0 <= i < |s.files| ==> s.files[i] <= FIRMWARE_LENGTH
  }

  function ApplyAll(s: Board, actions: seq<Action>): (r: Board)
    requires FilesInside(s)
    ensures FilesInside(r)
    decreases |actions|
  {
    if actions == [] then s
    else ApplyAll(Apply(s, actions[0]), actions[1..])
  }

  function Mappings(rs: seq<Region>): seq<Action> {
    seq(|rs|, i requires 0 <= i < |rs| => MapRegion(rs[i]))
  }

  /** What each call or store does, in order. */
  function Actions(c: Call): seq<Action> {
    match c
    case Start => [ClearTable] + Mappings(REGIONS) + [EnableMmu, LockFirmware, ReleaseM3]
    case Stop => [HoldM3, UnlockFirmware]
    case UnknownIoctl => []
    case Open => [OpenFile]
    case Write(f, buf) => [WriteFile(f, buf)]
    case M3Stores(at, value) => [StoreByte(at, value)]
  }

  predicate Running(s: Board) {
    !s.mmu.rstctrl.cpu1Reset
  }

  /** At every address the M3 finds what the memory map says. */
  ghost predicate SeesMemoryMap(m: MmuState) {
    forall addr: Word :: View(m, addr) == Translate(START_TABLE, addr)
  }

  /** What must hold at every moment: an M3 out of reset sees the whole memory map, and nobody changes its program. */
  ghost predicate Safe(s: Board) {
    Running(s) ==> SeesMemoryMap(s.mmu) && !s.firmware.enabled
  }

  ghost predicate AlwaysSafe(s: Board, actions: seq<Action>)
    requires FilesInside(s)
    decreases |actions|
  {
    Safe(s) && (actions == [] || AlwaysSafe(Apply(s, actions[0]), actions[1..]))
  }

  function AllActions(calls: seq<Call>): seq<Action> {
    if calls == [] then [] else Actions(calls[0]) + AllActions(calls[1..])
  }

  /** START is only called while the M3 is stopped. */
  predicate Orderly(calls: seq<Call>, running: bool) {
    calls == [] || match calls[0]
      case Start => !running && Orderly(calls[1..], true)
      case Stop => Orderly(calls[1..], false)
      case _ => Orderly(calls[1..], running)
  }

  lemma {:induction false} ApplyConcat(s: Board, a: seq<Action>, b: seq<Action>)
    requires FilesInside(s)
    ensures ApplyAll(s, a + b) == ApplyAll(ApplyAll(s, a), b)
    ensures AlwaysSafe(s, a + b) <==> AlwaysSafe(s, a) && AlwaysSafe(ApplyAll(s, a), b)
    decreases |a|
  {
    if a == [] {
      assert a + b == b;
    } else {
      assert (a + b)[1..] == a[1..] + b;
      ApplyConcat(Apply(s, a[0]), a[1..], b);
    }
  }

  lemma {:induction false} MappingWhileStopped(s: Board, rs: seq<Region>)
    requires FilesInside(s) && !Running(s)
    ensures AlwaysSafe(s, Mappings(rs))
    ensures ApplyAll(s, Mappings(rs)) == Board(WithTable(s.mmu, MapAll(s.mmu.table, rs)), s.firmware, s.files)
    decreases rs
  {
    if rs != [] {
      var s' := Apply(s, MapRegion(rs[0]));
      assert Mappings(rs)[1..] == Mappings(rs[1..]);
      MappingWhileStopped(s', rs[1..]);
    }
  }

  /** The board after START. */
  ghost function Started(s: Board): Board {
    Board(MmuState(START_TABLE, 1, 2, s.mmu.rstctrl.(mmuReset := false, cpu1Reset := false), MMU_TABLE_REGION,
                   TABLE_WALK_ENABLED),
          Allowed(s.firmware, false), s.files)
  }

  lemma LastSteps(s: Board)
    requires FilesInside(s) && !Running(s) && s.mmu.table == START_TABLE
    ensures ApplyAll(s, [EnableMmu, LockFirmware, ReleaseM3]) == Started(s)
    ensures AlwaysSafe(s, [EnableMmu, LockFirmware, ReleaseM3])
  {
  }

  /** START on a stopped board is safe after every action. It leaves the clocks on, the MMU on and both parts out of reset,
      loading forbidden and the M3 seeing the memory map; the image and all other bits are as before. */
  lemma StartFromStopped(s: Board)
    requires FilesInside(s) && !Running(s)
    ensures ApplyAll(s, Actions(Start)) == Started(s)
    ensures AlwaysSafe(s, Actions(Start))
    ensures Started(s).mmu == MmuState(START_TABLE, 1, 2, s.mmu.rstctrl.(mmuReset := false, cpu1Reset := false),
                                       0x9E00_0000, 6)
    ensures SeesMemoryMap(Started(s).mmu) && Started(s).firmware == FirmwareState(false, s.firmware.image)
  {
    hide MapAll;
    var cleared := Apply(s, ClearTable);
    var last := [EnableMmu, LockFirmware, ReleaseM3];
    var mapped := Board(WithTable(cleared.mmu, START_TABLE), cleared.firmware, cleared.files);
    assert START_TABLE == MapAll(EmptyTable(), REGIONS);
    MappingWhileStopped(cleared, REGIONS);
    ApplyConcat(cleared, Mappings(REGIONS), last);
    LastSteps(mapped);
    assert Actions(Start)[1..] == Mappings(REGIONS) + last;
  }

  /** After START the M3 finds behind every address of a region what memory.h puts there, and nothing behind others. */
  lemma RegionIsSeen(s: Board, addr: Word)
    requires FilesInside(s) && !Running(s)
    ensures var m := ApplyAll(s, Actions(Start)).mmu;
      && (forall r :: r in REGIONS && r.Contains(addr) ==> View(m, addr) == Some(r.phys + (addr - r.virt)))
      && ((forall r :: r in REGIONS ==> !r.Contains(addr)) ==> View(m, addr) == None)
  {
    StartFromStopped(s);
    hide *;
    MapIsSeen(Started(s).mmu, addr);
  }

  lemma MapIsSeen(m: MmuState, addr: Word)
    requires SeesMemoryMap(m)
    ensures forall r :: r in REGIONS && r.Contains(addr) ==> View(m, addr) == Some(r.phys + (addr - r.virt))
    ensures (forall r :: r in REGIONS ==> !r.Contains(addr)) ==> View(m, addr) == None
  {
    hide REGIONS, START_TABLE, View, Translate;
    forall r | r in REGIONS && r.Contains(addr)
      ensures View(m, addr) == Some(r.phys + (addr - r.virt))
    {
      RegionIsMapped(r, addr);
    }
    if forall r :: r in REGIONS ==> !r.Contains(addr) {
      NothingElseIsMapped(addr);
    }
  }

  /** An M3 that sees the memory map has its MMU on, out of reset and walking the table. */
  lemma SeeingNeedsTheMmu(m: MmuState)
    requires SeesMemoryMap(m)
    ensures !m.rstctrl.mmuReset && m.ttb == 0x9E00_0000 && m.cntl / 2 % 2 == 1 && m.cntl / 4 % 2 == 1
  {
    MapInNumbers(0);
    assert View(m, 0) != Some(0);
  }

  lemma StopSteps(s: Board)
    requires FilesInside(s) && Safe(s)
    ensures AlwaysSafe(s, Actions(Stop))
    ensures ApplyAll(s, Actions(Stop)) ==
      Board(s.mmu.(rstctrl := s.mmu.rstctrl.(cpu1Reset := true)), FirmwareState(true, s.firmware.image), s.files)
  {
  }

  /** START on a running M3 first empties the table under it. */
  lemma StartWhileRunningIsUnsafe(s: Board)
    requires FilesInside(s) && Running(s)
    ensures !AlwaysSafe(s, Actions(Start))
  {
    var s1 := Apply(s, ClearTable);
    MapInNumbers(0);
    assert Translate(EmptyTable(), 0) == None;
    assert View(s1.mmu, 0) != Translate(START_TABLE, 0);
  }

  /** Between system calls, loading is possible exactly while the M3 is stopped. */
  predicate Settled(s: Board) {
    s.firmware.enabled <==> !Running(s)
  }

  lemma CallKeepsSafety(s: Board, c: Call)
    requires FilesInside(s) && Safe(s) && Settled(s)
    ensures AlwaysSafe(s, Actions(c)) <==> !(c.Start? && Running(s))
    ensures var s' := ApplyAll(s, Actions(c));
      AlwaysSafe(s, Actions(c)) ==>
        Safe(s') && Settled(s') && (Running(s') <==> c.Start? || (Running(s) && !c.Stop?))
  {
    hide START_TABLE;
    match c
    case Start =>
      if Running(s) {
        StartWhileRunningIsUnsafe(s);
      } else {
        StartFromStopped(s);
      }
    case Stop => StopSteps(s);
    case Write(f, buf) => assert AlwaysSafe(Apply(s, WriteFile(f, buf)), []);
    case M3Stores(at, value) => assert AlwaysSafe(Apply(s, StoreByte(at, value)), []);
    case _ =>
  }

  /** The main result: over any sequence of system calls from a stopped board, the M3 is at every single moment safe if
      and only if START is never called while it runs. */
  lemma {:induction false} SafeIffOrderly(s: Board, calls: seq<Call>)
    requires FilesInside(s) && Safe(s) && Settled(s)
    ensures AlwaysSafe(s, AllActions(calls)) <==> Orderly(calls, Running(s))
    decreases calls
  {
    hide START_TABLE, Actions, Safe, Settled;
    if calls != [] {
      ApplyConcat(s, Actions(calls[0]), AllActions(calls[1..]));
      CallKeepsSafety(s, calls[0]);
      if AlwaysSafe(s, Actions(calls[0])) {
        SafeIffOrderly(ApplyAll(s, Actions(calls[0])), calls[1..]);
      }
    }
  }

  /** What a write returns. */
  function WriteResult(s: Board, f: nat, buf: seq<byte>): int
    requires FilesInside(s) && f < |s.files|
  {
    if s.firmware.enabled then Taken(s.firmware, s.files[f], |buf|) else -EPERM
  }

  /** The M3 stores nothing at its address `k`. */
  predicate NeverStored(actions: seq<Action>, k: nat) {
    forall a :: a in actions && a.StoreByte? ==> a.at != k
  }

  lemma RefusedWriteChangesNothing(f: FirmwareState, pos: nat, buf: seq<byte>)
    requires !f.enabled && pos <= FIRMWARE_LENGTH
    ensures Written(f, pos, buf) == f
  {
    assert f.image[..pos] + buf[..0] + f.image[pos..] == f.image;
  }

  /** From START to STOP every write is refused, the open files stay as they are, and the M3 runs: the driver leaves the
      image alone, so without stores of the M3 it does not change. */
  lemma {:induction false} LockedImageIsFrozen(s: Board, actions: seq<Action>)
    requires FilesInside(s) && !s.firmware.enabled && Running(s)
    requires UnlockFirmware !in actions && HoldM3 !in actions
    ensures var s' := ApplyAll(s, actions);
      && !s'.firmware.enabled && s.files <= s'.files && Running(s')
      && (forall f: nat, buf | f < |s'.files| :: WriteResult(s', f, buf) == -1)
      && ((forall a :: a in actions ==> !a.StoreByte?) ==> s'.firmware == s.firmware)
    decreases |actions|
  {
    if actions != [] {
      LockedStep(s, actions[0]);
      hide Apply;
      LockedImageIsFrozen(Apply(s, actions[0]), actions[1..]);
    }
  }

  lemma LockedStep(s: Board, a: Action)
    requires FilesInside(s) && !s.firmware.enabled && Running(s) && !a.UnlockFirmware? && !a.HoldM3?
    ensures var s' := Apply(s, a);
      && !s'.firmware.enabled && s.files <= s'.files && Running(s')
      && (!a.StoreByte? ==> s'.firmware == s.firmware)
  {
    if a.WriteFile? && a.file < |s.files| {
      RefusedWriteChangesNothing(s.firmware, s.files[a.file], a.buf);
    }
    hide Written, View, Mapped;
  }

  /** A store of a safe M3 at an address inside its program changes that byte of the image and no other. */
  lemma StoreLands(s: Board, k: nat, value: byte)
    requires FilesInside(s) && Safe(s) && Running(s) && k < 0x0020_0000
    ensures Apply(s, StoreByte(k, value)).firmware == s.firmware.(image := s.firmware.image[k := value])
  {
    hide START_TABLE, Translate, View;
    ProgramIsSeen(s, k);
  }

  /** A byte of the image is changed by no store at another address of the M3. */
  lemma StoreMisses(s: Board, a: Action, k: nat)
    requires FilesInside(s) && Safe(s) && Running(s) && a.StoreByte? && a.at != k && k < FIRMWARE_LENGTH
    ensures Apply(s, a).firmware.image[k] == s.firmware.image[k]
  {
    hide START_TABLE, Translate, View;
    ProgramIsSeen(s, k);
    assert View(s.mmu, a.at) == Translate(START_TABLE, a.at);
    if Translate(START_TABLE, a.at) == Some(FIRMWARE_REGION + k) {
      MappingIsInjective(a.at, k);
      assert false;
    }
  }

  /** In a safe run from START to STOP, the bytes at which the M3 stores nothing stay as they were loaded. */
  lemma {:induction false} UnstoredByteStays(s: Board, actions: seq<Action>, k: nat)
    requires FilesInside(s) && AlwaysSafe(s, actions) && !s.firmware.enabled && Running(s)
    requires UnlockFirmware !in actions && HoldM3 !in actions && NeverStored(actions, k) && k < FIRMWARE_LENGTH
    ensures ApplyAll(s, actions).firmware.image[k] == s.firmware.image[k]
    decreases |actions|
  {
    if actions != [] {
      var a := actions[0];
      if a.WriteFile? && a.file < |s.files| {
        RefusedWriteChangesNothing(s.firmware, s.files[a.file], a.buf);
      } else if a.StoreByte? {
        StoreMisses(s, a, k);
      }
      hide Written, Stored, Safe;
      UnstoredByteStays(Apply(s, a), actions[1..], k);
    }
  }

  lemma {:induction false} WithoutStop(calls: seq<Call>)
    requires Stop !in calls
    ensures UnlockFirmware !in AllActions(calls) && HoldM3 !in AllActions(calls)
  {
    if calls != [] {
      WithoutStop(calls[1..]);
    }
  }

  lemma {:induction false} SafeAtTheEnd(s: Board, actions: seq<Action>)
    requires FilesInside(s) && AlwaysSafe(s, actions)
    ensures Safe(ApplyAll(s, actions))
    decreases |actions|
  {
    if actions != [] {
      SafeAtTheEnd(Apply(s, actions[0]), actions[1..]);
    }
  }

  function Writes(f: nat, pieces: seq<seq<byte>>): seq<Call> {
    if pieces == [] then [] else [Write(f, pieces[0])] + Writes(f, pieces[1..])
  }

  lemma {:induction false} WritesLoad(s: Board, f: nat, pieces: seq<seq<byte>>)
    requires FilesInside(s) && f < |s.files|
    ensures var s' := ApplyAll(s, AllActions(Writes(f, pieces)));
      s'.mmu == s.mmu && s'.firmware == WrittenAll(s.firmware, s.files[f], pieces)
    decreases pieces
  {
    if pieces != [] {
      var a := WriteFile(f, pieces[0]);
      assert AllActions(Writes(f, pieces)) == [a] + AllActions(Writes(f, pieces[1..]));
      WritesLoad(Apply(s, a), f, pieces[1..]);
    }
  }

  /** What the M3 executes is what was loaded: open the firmware file, write a program that fits, in any pieces, call
      START. From then on, whatever happens except STOP and a second START, the M3 reads at its address `k` the byte `k`
      of the program, as long as it has stored nothing there itself. */
  lemma LoadedProgramRuns(s: Board, pieces: seq<seq<byte>>, later: seq<Call>, k: nat)
    requires FilesInside(s) && Settled(s) && !Running(s)
    requires k < |Concat(pieces)| <= 0x0020_0000
    requires Stop !in later && Orderly(later, true) && NeverStored(AllActions(later), k)
    ensures var loading := AllActions([Open] + Writes(|s.files|, pieces));
      var s' := ApplyAll(ApplyAll(ApplyAll(s, loading), Actions(Start)), AllActions(later));
      && Running(s')
      && View(s'.mmu, k) == Some(0x9E10_0000 + k)
      && s'.firmware.image[k] == Concat(pieces)[k]
  {
    var loaded := ApplyAll(s, AllActions([Open] + Writes(|s.files|, pieces)));
    LoadedImage(s, pieces);
    StartFromStopped(loaded);
    StartedIsSafe(loaded);
    var started, actions := Started(loaded), AllActions(later);
    WithoutStop(later);
    SafeIffOrderly(started, later);
    SafeAtTheEnd(started, actions);
    LockedImageIsFrozen(started, actions);
    UnstoredByteStays(started, actions, k);
    hide *;
    ProgramIsSeen(ApplyAll(started, actions), k);
  }

  lemma StartedIsSafe(s: Board)
    requires FilesInside(s)
    ensures var r := Started(s);
      Safe(r) && Settled(r) && Running(r) && !r.firmware.enabled && r.firmware.image == s.firmware.image
  {
  }

  lemma ProgramIsSeen(s: Board, k: nat)
    requires Safe(s) && Running(s) && k < FIRMWARE_LENGTH
    ensures View(s.mmu, k) == Translate(START_TABLE, k) == Some(FIRMWARE_REGION + k)
  {
    hide START_TABLE, View, Translate;
    MapInNumbers(k);
  }

  lemma LoadedImage(s: Board, pieces: seq<seq<byte>>)
    requires FilesInside(s) && s.firmware.enabled && |Concat(pieces)| <= FIRMWARE_LENGTH
    ensures var loading := AllActions([Open] + Writes(|s.files|, pieces));
      var loaded := ApplyAll(s, loading);
      && loaded == ApplyAll(Apply(s, OpenFile), AllActions(Writes(|s.files|, pieces)))
      && loaded.mmu == s.mmu
      && loaded.firmware.image[..|Concat(pieces)|] == Concat(pieces)
  {
    var withFile, writes := Apply(s, OpenFile), Writes(|s.files|, pieces);
    assert ([Open] + writes)[1..] == writes;
    assert AllActions([Open] + writes) == [OpenFile] + AllActions(writes);
    assert ([OpenFile] + AllActions(writes))[1..] == AllActions(writes);
    assert ApplyAll(s, [OpenFile] + AllActions(writes)) == ApplyAll(withFile, AllActions(writes));
    WritesLoad(withFile, |s.files|, pieces);
    LoadingIgnoresPieces(s.firmware, 0, pieces);
    hide ApplyAll, AllActions, WrittenAll, Concat;
    WrittenAtStart(s.firmware, Concat(pieces));
  }

  lemma WrittenAtStart(f: FirmwareState, program: seq<byte>)
    requires f.enabled && |program| <= FIRMWARE_LENGTH
    ensures Written(f, 0, program).image[..|program|] == program
  {
  }

  /** What the other processor can observe: the board after each of some actions. */
  function Moments(s: Board, actions: seq<Action>): seq<Board>
    requires FilesInside(s)
    decreases |actions|
  {
    if actions == [] then []
    else [Apply(s, actions[0])] + Moments(Apply(s, actions[0]), actions[1..])
  }

  lemma {:induction false} AlwaysSafeMeansEveryMoment(s: Board, actions: seq<Action>)
    requires FilesInside(s)
    ensures AlwaysSafe(s, actions) <==> Safe(s) && forall m :: m in Moments(s, actions) ==> Safe(m)
    decreases |actions|
  {
    hide Safe;
    if actions != [] {
      var s1 := Apply(s, actions[0]);
      AlwaysSafeMeansEveryMoment(s1, actions[1..]);
      assert Moments(s, actions)[0] == s1;
      assert forall m :: m in Moments(s, actions) <==> m == s1 || m in Moments(s1, actions[1..]);
    }
  }

  lemma {:induction false} MomentsSnoc(s: Board, actions: seq<Action>, a: Action)
    requires FilesInside(s)
    ensures ApplyAll(s, actions + [a]) == Apply(ApplyAll(s, actions), a)
    ensures Moments(s, actions + [a]) == Moments(s, actions) + [Apply(ApplyAll(s, actions), a)]
    decreases |actions|
  {
    if actions == [] {
      assert ([] + [a])[1..] == [];
    } else {
      assert (actions + [a])[1..] == actions[1..] + [a];
      MomentsSnoc(Apply(s, actions[0]), actions[1..], a);
    }
  }

  /** The driver: the file-level state of mmu.c and firmware.c. `log` records what each write left behind. */
  class Quadcopter {
    const mmu: Mmu
    const firmware: Loader
    var files: seq<nat>
    ghost var log: seq<Board>

    ghost predicate Valid()
      reads this
    {
      && mmu.Valid() && firmware.Valid() && (mmu.table as object) != firmware.image
      && forall i :: 0 <= i < |files| ==> files[i] <= FIRMWARE_LENGTH
    }

    ghost function State(): (s: Board)
      requires Valid()
      reads this, mmu, mmu.table, firmware, firmware.image
      ensures FilesInside(s)
    {
      Board(mmu.State(), firmware.State(), files)
    }

    /** `quadcopter_init`, on the registers it finds. */
    constructor (found: MmuState, memory: array<byte>)
      requires memory.Length == FIRMWARE_LENGTH
      ensures Valid() && files == [] && log == [] && fresh(mmu) && fresh(mmu.table) && fresh(firmware)
      ensures firmware.image == memory
      ensures State() == Board(WithTable(found, EmptyTable()), FirmwareState(true, memory[..]), [])
      ensures found.rstctrl.cpu1Reset ==> Safe(State()) && Settled(State()) && !Running(State())
    {
      mmu := new Mmu(found);
      firmware := new Loader(memory);
      files, log := [], [];
    }

    ghost method Record(start: Board, done: seq<Action>, a: Action, before: seq<Board>) returns (now: seq<Action>)
      requires Valid() && FilesInside(start) && State() == Apply(ApplyAll(start, done), a)
      requires log == before + Moments(start, done)
      modifies this`log
      ensures now == done + [a] && State() == ApplyAll(start, now) && log == before + Moments(start, now)
    {
      MomentsSnoc(start, done, a);
      log := log + [State()];
      now := done + [a];
    }

    method MapRegionOf(r: Region, ghost start: Board, ghost done: seq<Action>, ghost before: seq<Board>)
      returns (ghost now: seq<Action>)
      requires Valid() && r.megabytes <= 2048
      requires FilesInside(start) && State() == ApplyAll(start, done) && log == before + Moments(start, done)
      modifies this`log, mmu.table
      ensures Valid() && now == done + [MapRegion(r)]
      ensures State() == ApplyAll(start, now) && log == before + Moments(start, now)
    {
      mmu.MapRange(r.virt, r.phys, r.megabytes);
      now := Record(start, done, MapRegion(r), before);
    }

    /** `quadcopter_ioctl`. Each write is a moment of the log, in the order of START and STOP. */
    method Ioctl(call: Call)
      requires Valid() && (call.Start? || call.Stop? || call.UnknownIoctl?)
      modifies this`log, mmu, mmu.table, firmware`enabled
      ensures Valid() && State() == ApplyAll(old(State()), Actions(call))
      ensures log == old(log) + Moments(old(State()), Actions(call))
    {
      match call
      case Stop => StopM3();
      case Start => StartM3();
      case _ =>
    }

    method StopM3()
      requires Valid()
      modifies this`log, mmu`rstctrl, firmware`enabled
      ensures Valid() && State() == ApplyAll(old(State()), Actions(Stop))
      ensures log == old(log) + Moments(old(State()), Actions(Stop))
    {
      ghost var start, before := State(), log;
      mmu.DisableM3();
      ghost var done := Record(start, [], HoldM3, before);
      firmware.Enable();
      done := Record(start, done, UnlockFirmware, before);
    }

    method StartM3()
      requires Valid()
      modifies this`log, mmu, mmu.table, firmware`enabled
      ensures Valid() && State() == ApplyAll(old(State()), Actions(Start))
      ensures log == old(log) + Moments(old(State()), Actions(Start))
    {
      ghost var start, before := State(), log;
      mmu.Init();
      ghost var done := Record(start, [], ClearTable, before);
      done := MapRegions(start, done, before);
      done := EnableAndRelease(start, done, before);
      assert done == Actions(Start);
    }

    method EnableAndRelease(ghost start: Board, ghost done: seq<Action>, ghost before: seq<Board>)
      returns (ghost now: seq<Action>)
      requires Valid()
      requires FilesInside(start) && State() == ApplyAll(start, done) && log == before + Moments(start, done)
      modifies this`log, mmu, firmware`enabled
      ensures Valid() && now == done + [EnableMmu, LockFirmware, ReleaseM3]
      ensures State() == ApplyAll(start, now) && log == before + Moments(start, now)
    {
      mmu.Enable();
      now := Record(start, done, EnableMmu, before);
      firmware.Disable(); // no reloading while the M3 runs
      now := Record(start, now, LockFirmware, before);
      mmu.EnableM3();
      now := Record(start, now, ReleaseM3, before);
    }

    /** The eight `QUADCOPTER_MAP_RANGE` of START. */
    method MapRegions(ghost start: Board, ghost done: seq<Action>, ghost before: seq<Board>)
      returns (ghost now: seq<Action>)
      requires Valid()
      requires FilesInside(start) && State() == ApplyAll(start, done) && log == before + Moments(start, done)
      modifies this`log, mmu.table
      ensures Valid() && now == done + Mappings(REGIONS)
      ensures State() == ApplyAll(start, now) && log == before + Moments(start, now)
    {
      hide Apply, ApplyAll, Moments, Mapped;
      now := MapRegionOf(PROGRAM, start, done, before);
      now := MapRegionOf(STACK, start, now, before);
      now := MapRegionOf(PER, start, now, before);
      now := MapRegionOf(CFG, start, now, before);
      now := MapRegionOf(M3_PRIVATE, start, now, before);
      now := MapRegionOf(TX, start, now, before);
      now := MapRegionOf(RX, start, now, before);
      now := MapRegionOf(TRACE, start, now, before);
      assert Mappings(REGIONS) ==
        [MapRegion(PROGRAM), MapRegion(STACK), MapRegion(PER), MapRegion(CFG), MapRegion(M3_PRIVATE),
         MapRegion(TX), MapRegion(RX), MapRegion(TRACE)];
    }

    /** `quadcopter_open` of the firmware file. */
    method OpenFirmware() returns (f: nat)
      requires Valid()
      modifies this`files, this`log
      ensures Valid() && f < |files| && State() == ApplyAll(old(State()), Actions(Open)) && f == |old(files)|
      ensures log == old(log) + Moments(old(State()), Actions(Open))
    {
      ghost var start := State();
      f := |files|;
      files := files + [0];
      ghost var done := Record(start, [], OpenFile, log);
    }

    /** `quadcopter_write` on an open firmware file. */
    method WriteFirmware(f: nat, buf: array<byte>) returns (result: int)
      requires Valid() && f < |files| && buf != firmware.image && (buf as object) != mmu.table
      modifies this`files, this`log, firmware.image
      ensures Valid() && State() == ApplyAll(old(State()), Actions(Write(f, buf[..])))
      ensures result == WriteResult(old(State()), f, buf[..])
      ensures log == old(log) + Moments(old(State()), Actions(Write(f, buf[..])))
    {
      ghost var start := State();
      var pos;
      result, pos := firmware.Write(buf, files[f]);
      files := files[f := pos];
      ghost var done := Record(start, [], WriteFile(f, buf[..]), log);
    }
  }
}
