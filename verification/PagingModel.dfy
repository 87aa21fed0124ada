/** Physical memory, MEM_MAP and the process slots, and what mm/memory.c and the memory half of
    kernel/process.c do to them, as functions on values. A page table is an ordinary frame of
    `ram`: nothing but the invariant of `PagingInvariant` keeps tables apart from user data.
    Frame numbers past the 32 MB that MEM_MAP covers are ignored here; no reachable state has one. */
module PagingModel {
  import opened Limits
  import opened Words

  const FRAMES := 8192      // PAGES_SIZE: 32 MB of 4 KB frames
  const LOW_PAGES := 0xA0   // pages of slot 0 that a fork copies

  /** `count` is MEM_MAP, `ram[f]` the contents of frame f (frame 0 is the page directory),
      `tasks[n]` the frame of the PCB of slot n, 0 for NULL. */
  datatype Mem = Mem(count: seq<int>, ram: seq<Page>, tasks: seq<nat>)

  type Memory = m: Mem | |m.count| == FRAMES && |m.ram| == FRAMES && |m.tasks| == NR_TASKS
    witness Mem(seq(FRAMES, i => 0), seq(FRAMES, i => Blank()), seq(NR_TASKS, i => 0))

  /** MEM_MAP holds signed bytes. */
  function Inc8(c: int): int { if c == 127 then -128 else c + 1 }
  function Dec8(c: int): int { if c == -128 then 127 else c - 1 }

  /** Slot n owns the directory entries 16n up to 16n + 15. */
  function SlotOf(d: nat): nat { d / 16 }

  /** Word i of frame f, and memory with that word replaced. */
  function Item(m: Memory, f: nat, i: nat): Word
    requires i < 1024
  {
    if f < FRAMES then m.ram[f][i] else ZERO
  }

  function Put(m: Memory, f: nat, i: nat, w: Word): Memory
    requires i < 1024
  {
    if f < FRAMES then m.(ram := m.ram[f := m.ram[f][i := w]]) else m
  }

  function SetCount(m: Memory, f: nat, c: int): Memory {
    if f < FRAMES then m.(count := m.count[f := c]) else m
  }

  function CountOf(m: Memory, f: nat): int {
    if f < FRAMES then m.count[f] else 0
  }

  /** The second-level entry i reached through directory entry d; ZERO when there is no table. */
  function Pte(m: Memory, d: nat, i: nat): Word
    requires d < 1024 && i < 1024
  {
    if m.ram[0][d].p then Item(m, m.ram[0][d].frame, i) else ZERO
  }

  /** What a process sees at a virtual page: nothing, a frame of the kernel's low memory that it
      shares with slot 0, or contents of its own. */
  datatype View = Absent | Low(frame: nat) | Own(words: Page)

  function ViewAt(m: Memory, d: nat, i: nat): View
    requires d < 1024 && i < 1024
  {
    var w := Pte(m, d, i);
    if !w.p || w.frame >= FRAMES then Absent
    else if w.frame < KERNEL_FRAMES then Low(w.frame)
    else Own(m.ram[w.frame])
  }

  /** The kernel reaches frame f at address f * 4096, through the identity map of slot 0. */
  predicate KernelMaps(m: Memory, f: nat)
    requires f < FRAMES
  {
    var d := f / 1024;
    var e := m.ram[1 + d][f % 1024];
    m.ram[0][d].p && m.ram[0][d].frame == 1 + d && e.p && e.frame == f
  }

  predicate KernelMap(m: Memory) {
    forall f: nat | f < FRAMES :: KernelMaps(m, f)
  }

  // ---------- frames ----------

  /** The first free frame from i on, or FRAMES. */
  function FirstFree(count: seq<int>, i: nat): (f: nat)
    requires i <= |count|
    ensures i <= f <= |count|
    ensures f < |count| ==> count[f] == 0
    ensures forall k :: i <= k < f ==> count[k] != 0
    decreases |count| - i
  {
    if i == |count| || count[i] == 0 then i else FirstFree(count, i + 1)
  }

  /** Memory after the search and the frame found, now full of zeros; 0 when none is free. */
  function GetFreePage(m: Memory): (Memory, nat) {
    var f := FirstFree(m.count, 0);
    if f == FRAMES then (m, 0) else (m.(count := m.count[f := 1], ram := m.ram[f := Blank()]), f)
  }

  function FreePage(m: Memory, f: nat): Memory {
    if f < KERNEL_FRAMES then m
    else SetCount(m, f, if CountOf(m, f) != 0 then Dec8(CountOf(m, f)) else 0)
  }

  // ---------- copyPageTables ----------

  /** One round of the inner loop: entry i of table `from` is shared with table `to`. */
  function ShareEntry(m: Memory, to: nat, from: nat, i: nat): Memory
    requires i < 1024
  {
    var w := Item(m, from, i);
    if !w.p then m else
    var ro := w.(rw := false);
    var m1 := Put(m, to, i, ro);
    if Value(ro) > KERNEL_MEM then
      var m2 := Put(m1, from, i, ro);
      SetCount(m2, ro.frame, Inc8(CountOf(m2, ro.frame)))
    else m1
  }

  function ShareEntries(m: Memory, to: nat, from: nat, i: nat, cnt: nat): Memory
    requires i <= cnt <= 1024
    decreases cnt - i
  {
    if i == cnt then m else ShareEntries(ShareEntry(m, to, from, i), to, from, i + 1, cnt)
  }

  /** A directory or table entry the kernel makes: PG_P | PG_RWW | PG_USU. */
  function Entry(f: FrameNr): Word { Word(f, 0, true, true, true) }

  /** Directory entries from, from + 1, ... are copied to to, to + 1, ...; false is the return of -1. */
  function CopyTables(m: Memory, to: nat, from: nat, n: nat, cnt: nat): (Memory, bool)
    requires to + n <= 1024 && from + n <= 1024 && cnt <= 1024
    decreases n
  {
    if n == 0 then (m, true)
    else if m.ram[0][to].p then (m, false)
    else if !m.ram[0][from].p then CopyTables(m, to + 1, from + 1, n - 1, cnt)
    else
      var (m1, t) := GetFreePage(m);
      if t == 0 then (m1, false)
      else
        var m2 := Put(m1, 0, to, Entry(t));
        CopyTables(ShareEntries(m2, t, m.ram[0][from].frame, 0, cnt), to + 1, from + 1, n - 1, cnt)
  }

  // ---------- freePageTables ----------

  function DropEntry(m: Memory, t: nat, i: nat): Memory
    requires i < 1024
  {
    var w := Item(m, t, i);
    Put(if w.p then FreePage(m, w.frame) else m, t, i, ZERO)
  }

  function DropEntries(m: Memory, t: nat, i: nat): Memory
    requires i <= 1024
    decreases 1024 - i
  {
    if i == 1024 then m else DropEntries(DropEntry(m, t, i), t, i + 1)
  }

  function DropTable(m: Memory, d: nat): Memory
    requires d < 1024
  {
    if !m.ram[0][d].p then m
    else
      var t := m.ram[0][d].frame;
      Put(FreePage(DropEntries(m, t, 0), t), 0, d, ZERO)
  }

  function DropTables(m: Memory, d: nat, n: nat): Memory
    requires d + n <= 1024
    decreases n
  {
    if n == 0 then m else DropTables(DropTable(m, d), d + 1, n - 1)
  }

  // ---------- fork ----------

  /** Number of directory entries for `size` bytes: (size + 0x3fffff) >> 22, in 32 bits. */
  function Dirs(size: nat): nat { (size + 0x3fffff) % 0x1_0000_0000 / 0x400000 }

  /** How many entries of each table a fork of slot `cur` copies. */
  function Entries(cur: nat): nat { if cur == 0 then LOW_PAGES else 1024 }

  /** copyMem: the child's tables, or everything undone. The segment limit is 4096 * pages - 1. */
  function CopyMem(m: Memory, nr: nat, cur: nat, pages: nat): (Memory, bool)
    requires nr < NR_TASKS && cur < NR_TASKS && 1 <= pages <= 0x4000
  {
    var (m1, ok) := CopyTables(m, 16 * nr, 16 * cur, Dirs(4096 * pages), Entries(cur));
    if ok then (m1, true) else (DropTables(m1, 16 * nr, Dirs(4096 * pages - 1)), false)
  }

  /** copyProcess, seen by memory; `pcb` is what ends up in the frame of the new PCB. */
  function CopyProcess(m: Memory, nr: nat, cur: nat, pages: nat, pcb: Page): (Memory, bool)
    requires nr < NR_TASKS && cur < NR_TASKS && 1 <= pages <= 0x4000
  {
    var (m1, f) := GetFreePage(m);
    if f == 0 then (m1, false)
    else
      var m2 := m1.(tasks := m1.tasks[nr := f], ram := m1.ram[f := pcb]);
      var (m3, ok) := CopyMem(m2, nr, cur, pages);
      if ok then (m3, true) else (FreePage(m3.(tasks := m3.tasks[nr := 0]), f), false)
  }

  // ---------- write faults ----------

  /** The entry is item i of frame t; false is the endless loop when memory runs out. */
  function UnWriteProtectPage(m: Memory, t: nat, i: nat): (Memory, bool)
    requires i < 1024
  {
    var w := Item(m, t, i);
    var page := w.frame;
    if page >= KERNEL_FRAMES && CountOf(m, page) == 1 then (Put(m, t, i, w.(rw := true)), true)
    else
      var (m1, copy) := GetFreePage(m);
      if copy == 0 then (m1, false)
      else
        var m2 := if page >= KERNEL_FRAMES then SetCount(m1, page, Dec8(CountOf(m1, page))) else m1;
        var m3 := Put(m2, t, i, Entry(copy));
        (m3.(ram := m3.ram[copy := if page < FRAMES then m3.ram[page] else Blank()]), true)
  }

  /** The address of a write: directory index, table index, word within the page. */
  datatype Addr = Addr(d: nat, i: nat, off: nat) {
    predicate Valid() { d < 1024 && i < 1024 && off < 1024 }
  }

  /** A user-mode store of one word. Without a page nothing changes (missingPage is a stub); a
      read-only page faults and the instruction runs again. False: the kernel loops for ever. */
  function Store(m: Memory, a: Addr, w: Word): (Memory, bool)
    requires a.Valid()
  {
    var e := Pte(m, a.d, a.i);
    if !e.p then (m, true)
    else if e.rw then (Put(m, e.frame, a.off, w), true)
    else
      var (m1, ok) := UnWriteProtectPage(m, m.ram[0][a.d].frame, a.i);
      (if ok then Put(m1, Pte(m1, a.d, a.i).frame, a.off, w) else m1, ok)
  }
}
