/**
  The page directory and the two page tables that init_paging builds, and the address
  translation the processor performs with them: 32-bit paging with 4 KB and 4 MB pages,
  section 4.3 of the Intel SDM, volume 3A.
 */
module Paging {
  import opened Bytes

  const PAGE_VEC := 1024
  const ALIGN_4KB := 4096
  const FOUR_MB := 0x40_0000
  const EIGHT_MB := 0x80_0000
  const EIGHT_KB := 0x2000

  const VIDEO_MEMORY_PAGE := 184
  const VIDEO_FRAME := 0xB8
  const TERMINAL_VID_PAGE := 186
  const TERMINAL_FRAME := 0xBA
  const KERNEL_FRAME := 0x400
  const USER_SPACE_DIR_NUM := 32
  const VIDMAP_VMEM_LOC := 35
  const VIDMAP_VMEM_LOC_PAGE := 10
  const MAX_TERMINALS := 3
  const NUM_PIDS := 6

  /** A directory entry: the bits that take part in translation and protection. */
  datatype Pde = Pde(present: bool, writable: bool, user: bool, large: bool, frame: nat)

  /** A page-table entry. */
  datatype Pte = Pte(present: bool, writable: bool, user: bool, frame: nat)

  /** The three arrays, and the page frames in which the two page tables themselves lie. */
  datatype Tables = Tables(dir: seq<Pde>, table: seq<Pte>, vmem: seq<Pte>, tableFrame: nat, vmemFrame: nat)
  {
    predicate Wf() {
      |dir| == PAGE_VEC && |table| == PAGE_VEC && |vmem| == PAGE_VEC && tableFrame != vmemFrame
    }
  }

  /** The outcome of a memory access: a page fault, or a physical address and its privilege. */
  datatype Mapping = Fault | Mapped(phys: nat, user: bool)

  /** The processor's walk of one page table, for an address covered by directory entry pde. */
  function WalkTable(pde: Pde, pt: seq<Pte>, addr: nat): Mapping
    requires |pt| == PAGE_VEC
  {
    var pte := pt[addr / ALIGN_4KB % PAGE_VEC];
    if pte.present then Mapped(pte.frame * ALIGN_4KB + addr % ALIGN_4KB, pde.user && pte.user) else Fault
  }

  /** The processor's translation of a linear address. */
  function Translate(t: Tables, addr: nat): Mapping
    requires t.Wf() && addr < 0x1_0000_0000
  {
    var pde := t.dir[addr / FOUR_MB];
    if !pde.present then Fault
    else if pde.large then Mapped(pde.frame / 1024 * FOUR_MB + addr % FOUR_MB, pde.user)
    else if pde.frame == t.tableFrame then WalkTable(pde, t.table, addr)
    else if pde.frame == t.vmemFrame then WalkTable(pde, t.vmem, addr)
    else Fault
  }

  /** get_phys_addr: the frame number of the 4 MB block that holds the program of pid. */
  function PhysFrame(pid: nat): nat {
    (EIGHT_MB + FOUR_MB * pid) / ALIGN_4KB
  }

  /** get_pcb_ptr: where the PCB of pid starts, at the bottom of its 8 KB kernel stack. */
  function PcbAddress(pid: int): int {
    EIGHT_MB - EIGHT_KB * (pid + 1)
  }

  /** The value execute, halt and scheduler store in tss.esp0 for pid. */
  function KernelStackTop(pid: int): int {
    EIGHT_MB - EIGHT_KB * pid - 4
  }

  /** The four bytes at a stack top are the last ones of pid's block. */
  ghost predicate IsStackTopOf(esp0: int, pid: int) { esp0 + 4 == PcbAddress(pid) + EIGHT_KB }

  const BLANK_PDE := Pde(false, true, false, false, 0)
  const BLANK_PTE := Pte(false, true, false, 0)

  /**
    The arrays that describe one moment of the running system: everything as init_paging left
    it, except that the user program's 4 MB page, the kernel's video page and the user's video
    page point at the given frames.
   */
  ghost predicate Shaped(t: Tables, program: nat, video: nat, vidmap: nat) {
    && t.Wf()
    && (forall i {:trigger t.dir[i]} :: 0 <= i < PAGE_VEC ==>
          t.dir[i] == (if i == 0 then Pde(true, true, false, false, t.tableFrame)
                       else if i == 1 then Pde(true, true, false, true, KERNEL_FRAME)
                       else if i == USER_SPACE_DIR_NUM then Pde(true, true, true, true, program)
                       else if i == VIDMAP_VMEM_LOC then Pde(true, true, true, false, t.vmemFrame)
                       else BLANK_PDE))
    && (forall i {:trigger t.table[i]} :: 0 <= i < PAGE_VEC ==>
          t.table[i] == (if i == VIDEO_MEMORY_PAGE then Pte(true, true, false, video)
                         else if TERMINAL_VID_PAGE <= i < TERMINAL_VID_PAGE + MAX_TERMINALS
                         then Pte(true, true, false, TERMINAL_FRAME + (i - TERMINAL_VID_PAGE))
                         else BLANK_PTE))
    && (forall i {:trigger t.vmem[i]} :: 0 <= i < PAGE_VEC ==>
          t.vmem[i] == (if i == VIDMAP_VMEM_LOC_PAGE then Pte(true, true, true, vidmap) else BLANK_PTE))
  }

  const PROGRAM_BASE := USER_SPACE_DIR_NUM * FOUR_MB
  const VIDMAP_BASE := VIDMAP_VMEM_LOC * FOUR_MB + VIDMAP_VMEM_LOC_PAGE * ALIGN_4KB

  /** The memory map the system is meant to have, written as address ranges. */
  function MemoryMap(program: nat, video: nat, vidmap: nat, addr: nat): Mapping {
    if 0xB_8000 <= addr < 0xB_9000 then Mapped(video * ALIGN_4KB + (addr - 0xB_8000), false)
    else if 0xB_A000 <= addr < 0xB_D000 then Mapped(addr, false)
    else if FOUR_MB <= addr < EIGHT_MB then Mapped(addr, false)
    else if 0x800_0000 <= addr < 0x840_0000 then Mapped(program / 1024 * FOUR_MB + (addr - 0x800_0000), true)
    else if 0x8C0_A000 <= addr < 0x8C0_B000 then Mapped(vidmap * ALIGN_4KB + (addr - 0x8C0_A000), true)
    else Fault
  }

  /** Every one of the 2^32 addresses translates exactly as the memory map says. */
  lemma TranslateIsMemoryMap(t: Tables, program: nat, video: nat, vidmap: nat, addr: nat)
    requires Shaped(t, program, video, vidmap) && addr < 0x1_0000_0000
    ensures Translate(t, addr) == MemoryMap(program, video, vidmap, addr)
  {
    var d := addr / FOUR_MB;
    var p := addr / ALIGN_4KB % PAGE_VEC;
    assert t.dir[d] == t.dir[d] && t.table[p] == t.table[p] && t.vmem[p] == t.vmem[p];
    assert addr == d * FOUR_MB + p * ALIGN_4KB + addr % ALIGN_4KB;
  }

  /**
    init_paging: fills the directory, the low page table and the user video table. The two
    frame numbers are where the linker placed the page tables.
   */
  method InitPaging(dir: array<Pde>, table: array<Pte>, vmem: array<Pte>, tableFrame: nat, vmemFrame: nat)
    requires dir.Length == PAGE_VEC && table.Length == PAGE_VEC && vmem.Length == PAGE_VEC
    requires table != vmem && tableFrame != vmemFrame
    modifies dir, table, vmem
    ensures Shaped(Tables(dir[..], table[..], vmem[..], tableFrame, vmemFrame), 0x800, 0xB8, 0xB8)
  {
    for i := 0 to PAGE_VEC
      invariant forall k :: 0 <= k < i ==> dir[k] == BLANK_PDE
    {
      dir[i] := BLANK_PDE;
    }
    dir[0] := Pde(true, true, false, false, tableFrame);
    for i := 0 to PAGE_VEC
      invariant dir[0] == Pde(true, true, false, false, tableFrame)
      invariant forall k :: 1 <= k < PAGE_VEC ==> dir[k] == BLANK_PDE
      invariant forall k :: 0 <= k < i ==> table[k] == BLANK_PTE
    {
      table[i] := BLANK_PTE;
    }
    table[VIDEO_MEMORY_PAGE] := Pte(true, true, false, VIDEO_FRAME);
    for i := 0 to MAX_TERMINALS
      invariant dir[0] == Pde(true, true, false, false, tableFrame)
      invariant forall k :: 1 <= k < PAGE_VEC ==> dir[k] == BLANK_PDE
      invariant forall k {:trigger table[k]} :: 0 <= k < PAGE_VEC ==>
        table[k] == (if k == VIDEO_MEMORY_PAGE then Pte(true, true, false, VIDEO_FRAME)
                     else if TERMINAL_VID_PAGE <= k < TERMINAL_VID_PAGE + i
                     then Pte(true, true, false, TERMINAL_FRAME + (k - TERMINAL_VID_PAGE))
                     else BLANK_PTE)
    {
      table[TERMINAL_VID_PAGE + i] := Pte(true, true, false, TERMINAL_FRAME + i);
    }
    dir[1] := Pde(true, true, false, true, KERNEL_FRAME);
    dir[USER_SPACE_DIR_NUM] := Pde(true, true, true, true, PhysFrame(0));
    dir[VIDMAP_VMEM_LOC] := Pde(true, true, true, false, vmemFrame);
    ghost var lowTable, directory := table[..], dir[..];
    for i := 0 to PAGE_VEC
      invariant table[..] == lowTable && dir[..] == directory
      invariant forall k :: 0 <= k < i ==> vmem[k] == BLANK_PTE
    {
      vmem[i] := BLANK_PTE;
    }
    vmem[VIDMAP_VMEM_LOC_PAGE] := Pte(true, true, true, VIDEO_FRAME);
  }

  /** The part of physical memory that belongs to pid alone: PCB and kernel stack, then program. */
  predicate Owns(pid: nat, phys: int) {
    || PcbAddress(pid) <= phys < PcbAddress(pid) + EIGHT_KB
    || PhysFrame(pid) * ALIGN_4KB <= phys < PhysFrame(pid) * ALIGN_4KB + FOUR_MB
  }

  /**
    Where the memory of the pids lies: the blocks of 8 KB that hold PCB and kernel stack one below the
    other from 8 MB down, and the programs of 4 MB one above the other from 8 MB up.
   */
  lemma PidsAreStacked(p: nat)
    ensures PcbAddress(p) + 0x2000 == (if p == 0 then 0x80_0000 else PcbAddress(p - 1))
    ensures PhysFrame(p) * 4096 == (if p == 0 then 0x80_0000 else PhysFrame(p - 1) * 4096 + 0x40_0000)
    ensures IsStackTopOf(KernelStackTop(p), p)
  {
    FrameOfPid(p);
    if p > 0 {
      FrameOfPid(p - 1);
    }
  }

  lemma FrameOfPid(p: nat)
    ensures PhysFrame(p) == 0x800 + 0x400 * p
  {
    assert EIGHT_MB + FOUR_MB * p == ALIGN_4KB * (0x800 + 0x400 * p);
  }

  /**
    Two pids never share a byte, a pid's stack top lies inside its own block, no pid's memory
    overlaps a video frame, and the 4 MB page the directory entry names is the pid's own.
   */
  lemma PidsAreDisjoint(p: nat, q: nat, phys: int)
    requires p < NUM_PIDS && q < NUM_PIDS
    ensures Owns(p, phys) && Owns(q, phys) ==> p == q
    ensures Owns(p, KernelStackTop(p)) && Owns(p, KernelStackTop(p) + 3) && IsStackTopOf(KernelStackTop(p), p)
    ensures Owns(p, phys) ==> phys >= (TERMINAL_FRAME + MAX_TERMINALS) * ALIGN_4KB
    ensures PhysFrame(p) / 1024 * FOUR_MB == PhysFrame(p) * ALIGN_4KB
  {
    FrameOfPid(p);
    FrameOfPid(q);
    assert PhysFrame(p) / 1024 == 2 + p;
  }

  /** vidmap: the address handed to the program, or None when the out-pointer is rejected. */
  function Vidmap(screenStart: nat): (r: Option<nat>) {
    if screenStart == 0 then None
    else if screenStart < PROGRAM_BASE || screenStart > PROGRAM_BASE + FOUR_MB then None
    else Some(VIDMAP_VMEM_LOC * FOUR_MB + VIDMAP_VMEM_LOC_PAGE * ALIGN_4KB)
  }

  /** Which pointers vidmap accepts, and the address that it hands out. */
  lemma VidmapAccepts(screenStart: nat)
    ensures Vidmap(screenStart).Some? <==> 0x800_0000 <= screenStart <= 0x840_0000
    ensures Vidmap(screenStart).Some? ==> Vidmap(screenStart).value == 0x8C0_A000
  {
  }

  /** What vidmap hands out is a user page showing, byte for byte, the frame vidmap points at. */
  lemma VidmapShowsTheScreen(t: Tables, program: nat, video: nat, vidmap: nat, screenStart: nat, off: nat)
    requires Shaped(t, program, video, vidmap) && Vidmap(screenStart).Some? && off < ALIGN_4KB
    ensures Translate(t, Vidmap(screenStart).value + off) == Mapped(vidmap * ALIGN_4KB + off, true)
  {
    TranslateIsMemoryMap(t, program, video, vidmap, Vidmap(screenStart).value + off);
  }

  /**
    The range check of vidmap lets through four out-pointers too many: the four bytes it stores all
    lie in a mapped page exactly when the pointer is at least four bytes below the end.
   */
  lemma VidmapPointerCheck(t: Tables, program: nat, video: nat, vidmap: nat, screenStart: nat)
    requires Shaped(t, program, video, vidmap) && Vidmap(screenStart).Some?
    ensures (forall a: nat :: screenStart <= a < screenStart + 4 ==> Translate(t, a).Mapped?)
            <==> screenStart <= PROGRAM_BASE + FOUR_MB - 4
  {
    forall a: nat | screenStart <= a < screenStart + 4
      ensures Translate(t, a) == MemoryMap(program, video, vidmap, a)
    {
      TranslateIsMemoryMap(t, program, video, vidmap, a);
    }
    if screenStart > PROGRAM_BASE + FOUR_MB - 4 {
      assert Translate(t, PROGRAM_BASE + FOUR_MB) == Fault;
    }
  }

  /** One of the four: a pointer to just behind the program's page is accepted, and not a byte can be stored there. */
  lemma VidmapPastTheEnd(t: Tables, program: nat, video: nat, vidmap: nat)
    requires Shaped(t, program, video, vidmap)
    ensures Vidmap(PROGRAM_BASE + FOUR_MB).Some? && Translate(t, PROGRAM_BASE + FOUR_MB) == Fault
  {
    TranslateIsMemoryMap(t, program, video, vidmap, PROGRAM_BASE + FOUR_MB);
  }
}
