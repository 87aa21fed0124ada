/** mm/memory.c and the memory half of copyProcess as they run: MEM_MAP, physical memory and TASKS
    are arrays updated in place. Every method leaves exactly what the function of the same name in
    `PagingModel` says; the theorems about those functions are theorems about these methods. */
module PagingKernel {
  import opened Limits
  import opened Words
  import opened PagingModel
  import PagingFork
  import BootMemory

  class Kernel {
    const memMap: array<int>
    const ram: array<Words.Page>
    const tasks: array<nat>

    ghost predicate Valid() {
      && memMap.Length == FRAMES && ram.Length == FRAMES && tasks.Length == NR_TASKS
      && memMap as object != tasks as object
    }

    /** The state as a value. */
    ghost function M(): Memory
      requires Valid()
      reads memMap, ram, tasks
    {
      Mem(memMap[..], ram[..], tasks[..])
    }

    // ---------- one word, one count ----------

    method Load(f: nat, i: nat) returns (w: Word)
      requires Valid() && i < 1024
      ensures w == Item(M(), f, i)
    {
      w := if f < FRAMES then ram[f][i] else ZERO;
    }

    method StoreWord(f: nat, i: nat, w: Word)
      requires Valid() && i < 1024
      modifies ram
      ensures M() == Put(old(M()), f, i, w)
    {
      if f < FRAMES {
        ram[f] := ram[f][i := w];
      }
    }

    method SetMemMap(f: nat, c: int)
      requires Valid()
      modifies memMap
      ensures M() == SetCount(old(M()), f, c)
    {
      if f < FRAMES {
        memMap[f] := c;
      }
    }

    method MemMap(f: nat) returns (c: int)
      requires Valid()
      ensures c == CountOf(M(), f)
    {
      c := if f < FRAMES then memMap[f] else 0;
    }

    // ---------- initMemory ----------

    /** MEM_MAP starts with -1 for frame 0 and zeros. False is the endless loop with less than 4 MB. */
    method InitMemory(mem: int) returns (ok: bool)
      requires Valid() && memMap[0] == -1 && forall f | 1 <= f < FRAMES :: memMap[f] == 0
      modifies memMap
      ensures ok <==> BootMemory.Usable(mem) >= BootMemory.SMALLEST
      ensures M() == if ok then old(M()).(count := BootMemory.Counts(BootMemory.Base(mem))) else old(M())
    {
      var size := if mem > BootMemory.LARGEST then BootMemory.LARGEST else mem;
      size := size / 4096 * 4096;
      ok := size >= BootMemory.SMALLEST;
      if !ok { return; }
      var bufEnd, mainEnd := size / 4 - 1, size - 1;
      ghost var base := BootMemory.Base(mem);
      var i := 0;
      while i < FRAMES
        invariant 0 <= i <= FRAMES
        invariant forall f | 0 <= f < i :: memMap[f] == if f < base then 100 else 0
        invariant forall f | i <= f < FRAMES :: memMap[f] == old(memMap[f])
      {
        if i <= bufEnd / 4096 { memMap[i] := 100; }
        else if i <= mainEnd / 4096 { memMap[i] := 0; }
        i := i + 1;
      }
      assert memMap[..] == BootMemory.Counts(base);
    }

    // ---------- frames ----------

    /** The first free frame, counted once and filled with zeros; 0 when there is none. */
    method GetFreePage() returns (f: nat)
      requires Valid()
      modifies memMap, ram
      ensures (M(), f) == PagingModel.GetFreePage(old(M()))
    {
      var i := 0;
      while i < FRAMES
        invariant 0 <= i <= FRAMES && M() == old(M())
        invariant FirstFree(M().count, 0) == FirstFree(M().count, i)
      {
        if memMap[i] == 0 {
          ghost var m, was := M(), ram[..];
          assert FirstFree(m.count, 0) == i;
          memMap[i] := 1;
          for j := 0 to 1024
            invariant memMap[..] == m.count[i := 1] && tasks[..] == m.tasks
            invariant forall k :: 0 <= k < j ==> ram[i][k] == ZERO
            invariant forall g :: 0 <= g < FRAMES && g != i ==> ram[g] == was[g]
          {
            ram[i] := ram[i][j := ZERO];
          }
          assert ram[i] == Blank();
          assert ram[..] == was[i := Blank()];
          return i;
        }
        i := i + 1;
      }
      return 0;
    }

    method FreePage(f: nat)
      requires Valid()
      modifies memMap
      ensures M() == PagingModel.FreePage(old(M()), f)
    {
      if f < KERNEL_FRAMES { return; }
      var c := MemMap(f);
      SetMemMap(f, Dec8(c));
      if c != 0 { return; }
      SetMemMap(f, 0);
    }

    // ---------- page tables ----------

    /** -1 and nothing done when an address is not a multiple of 4 MB. */
    method CopyPageTables(dest: nat, src: nat, size: nat) returns (r: int)
      requires Valid() && size < 0x1_0000_0000
      requires dest / 0x400000 + Dirs(size) <= 1024 && src / 0x400000 + Dirs(size) <= 1024
      modifies memMap, ram
      ensures r == 0 || r == -1
      ensures dest % 0x400000 != 0 || src % 0x400000 != 0 ==> r == -1 && M() == old(M())
      ensures dest % 0x400000 == 0 && src % 0x400000 == 0 ==>
        var cnt := if src == 0 then LOW_PAGES else 1024;
        (M(), r == 0) == CopyTables(old(M()), dest / 0x400000, src / 0x400000, Dirs(size), cnt)
    {
      if dest % 0x400000 != 0 || src % 0x400000 != 0 { return -1; }
      var from: nat, to: nat, n: nat := src / 0x400000, dest / 0x400000, Dirs(size);
      ghost var cnt := if src == 0 then LOW_PAGES else 1024;
      while n > 0
        invariant to + n <= 1024 && from + n <= 1024
        invariant CopyTables(M(), to, from, n, cnt)
               == CopyTables(old(M()), dest / 0x400000, src / 0x400000, Dirs(size), cnt)
      {
        var toDir := Load(0, to);
        var fromDir := Load(0, from);
        if toDir.p { return -1; }
        if fromDir.p {
          var table := GetFreePage();
          if table == 0 { return -1; }
          StoreWord(0, to, Entry(table));
          ShareTable(table, fromDir.frame, if src == 0 then LOW_PAGES else 1024);
        }
        n, from, to := n - 1, from + 1, to + 1;
      }
      return 0;
    }

    /** The inner loop of copyPageTables. */
    method ShareTable(to: nat, from: nat, cnt: nat)
      requires Valid() && cnt <= 1024
      modifies memMap, ram
      ensures M() == ShareEntries(old(M()), to, from, 0, cnt)
    {
      var i: nat := 0;
      while i < cnt
        invariant i <= cnt
        invariant ShareEntries(M(), to, from, i, cnt) == ShareEntries(old(M()), to, from, 0, cnt)
      {
        var page := Load(from, i);
        if page.p {
          page := page.(rw := false);
          StoreWord(to, i, page);
          if Value(page) > KERNEL_MEM {
            StoreWord(from, i, page);
            var c := MemMap(page.frame);
            SetMemMap(page.frame, Inc8(c));
          }
        }
        i := i + 1;
      }
    }

    method FreePageTables(addr: nat, size: nat) returns (r: int)
      requires Valid() && size < 0x1_0000_0000 && addr / 0x400000 + Dirs(size) <= 1024
      modifies memMap, ram
      ensures addr % 0x400000 != 0 || addr == 0 ==> r == -1 && M() == old(M())
      ensures addr % 0x400000 == 0 && addr != 0 ==> r == 0 && M() == DropTables(old(M()), addr / 0x400000, Dirs(size))
    {
      hide DropEntries, PagingModel.FreePage, Put;
      if addr % 0x400000 != 0 || addr == 0 { return -1; }
      var d: nat, n: nat := addr / 0x400000, Dirs(size);
      while n > 0
        invariant d + n <= 1024
        invariant DropTables(M(), d, n) == DropTables(old(M()), addr / 0x400000, Dirs(size))
      {
        var dir := Load(0, d);
        if dir.p {
          DropAll(dir.frame);
          FreePage(dir.frame);
          StoreWord(0, d, ZERO);
        }
        n, d := n - 1, d + 1;
      }
      return 0;
    }

    /** The inner loop of freePageTables. */
    method DropAll(table: nat)
      requires Valid()
      modifies memMap, ram
      ensures M() == DropEntries(old(M()), table, 0)
    {
      var i: nat := 0;
      while i < 1024
        invariant 0 <= i <= 1024
        invariant DropEntries(M(), table, i) == DropEntries(old(M()), table, 0)
      {
        var page := Load(table, i);
        if page.p {
          FreePage(page.frame);
        }
        StoreWord(table, i, ZERO);
        i := i + 1;
      }
    }

    // ---------- write faults ----------

    /** False where the kernel would loop for ever for want of a frame. */
    method UnWriteProtectPage(table: nat, i: nat) returns (ok: bool)
      requires Valid() && i < 1024
      modifies memMap, ram
      ensures (M(), ok) == PagingModel.UnWriteProtectPage(old(M()), table, i)
    {
      var item := Load(table, i);
      var page := item.frame;
      var c := MemMap(page);
      if page >= KERNEL_FRAMES && c == 1 {
        StoreWord(table, i, item.(rw := true));
        return true;
      }
      var copy := GetFreePage();
      if copy == 0 { return false; }
      if page >= KERNEL_FRAMES {
        c := MemMap(page);
        SetMemMap(page, Dec8(c));
      }
      StoreWord(table, i, Entry(copy));
      ram[copy] := if page < FRAMES then ram[page] else Blank();
      return true;
    }

    /** The fault handler finds the entry from the faulting address. */
    method WriteProtectPage(addr: nat) returns (ok: bool)
      requires Valid() && addr < 0x1_0000_0000
      modifies memMap, ram
      ensures forall d: nat, i: nat, off: nat | d < 1024 && i < 1024 && off < 4096 && addr == Linear(d, i, off) ::
                (M(), ok) == PagingModel.UnWriteProtectPage(old(M()), old(M()).ram[0][d].frame, i)
    {
      forall d: nat, i: nat, off: nat | d < 1024 && i < 1024 && off < 4096 && addr == Linear(d, i, off)
        ensures d == addr / 0x400000 && i == addr / 0x1000 % 1024
      {
        LinearParts(d, i, off);
      }
      var dir := Load(0, addr / 0x400000);
      ok := UnWriteProtectPage(dir.frame, addr / 0x1000 % 1024);
    }

    // ---------- fork ----------

    /** `limit` is data_limit, 4096 * pages - 1; the segments of slot n start at n * 64 MB. */
    method CopyMem(nr: nat, cur: nat, pages: nat) returns (r: int)
      requires Valid() && 1 <= nr < NR_TASKS && cur < NR_TASKS && 1 <= pages <= 0x4000
      modifies memMap, ram
      ensures (M(), r == 0) == PagingModel.CopyMem(old(M()), nr, cur, pages)
    {
      hide CopyTables, DropTables, Dirs;
      PagingFork.SameDirs(pages);
      SlotStart(nr);
      SlotStart(cur);
      var limit, dest := 4096 * pages - 1, nr * 0x4000000;
      r := CopyPageTables(dest, cur * 0x4000000, limit + 1);
      if r != 0 {
        var _ := FreePageTables(dest, limit);
        r := -1;
      }
    }

    /** Memory after copyProcess; `pcb` is what it writes into the frame of the new PCB. */
    method CopyProcess(nr: nat, cur: nat, pages: nat, pcb: Words.Page) returns (r: int)
      requires Valid() && 1 <= nr < NR_TASKS && cur < NR_TASKS && 1 <= pages <= 0x4000
      modifies memMap, ram, tasks
      ensures (M(), r == 0) == PagingModel.CopyProcess(old(M()), nr, cur, pages, pcb)
    {
      var p := GetFreePage();
      if p == 0 { return -1; }
      tasks[nr] := p;
      ram[p] := pcb;
      r := CopyMem(nr, cur, pages);
      if r != 0 {
        tasks[nr] := 0;
        FreePage(p);
        r := -1;
      }
    }
  }

  /** The linear address of byte `off` of page i behind directory entry d. */
  function Linear(d: nat, i: nat, off: nat): nat { d * 0x400000 + i * 0x1000 + off }

  lemma LinearParts(d: nat, i: nat, off: nat)
    requires i < 1024 && off < 4096
    ensures Linear(d, i, off) / 0x400000 == d && Linear(d, i, off) / 0x1000 % 1024 == i
  {
    assert Linear(d, i, off) / 0x1000 == d * 1024 + i;
  }

  /** The 64 MB of a slot start at its first directory entry. */
  lemma SlotStart(nr: nat)
    ensures nr * 0x4000000 / 0x400000 == 16 * nr && nr * 0x4000000 % 0x400000 == 0
  {
  }
}
