/** setupPageing of boot/setup.asm: the identity map that the kernel starts on. */
module BootPaging {
  import opened Limits
  import opened Words
  import opened PagingModel
  import opened PagingInvariant
  import opened PagingRuns
  import BootMemory

  const PAGE_TBL_BASE := 0x1000
  const KERNEL_ENTRY := 0x10000    // where the kernel is placed afterwards
  const FLAGS := 7                 // PG_P | PG_RWW | PG_USU

  /** Page tables for mem bytes: 4 MB each, rounded up. */
  function TableCount(mem: nat): nat { if mem % 0x40_0000 == 0 then mem / 0x40_0000 else mem / 0x40_0000 + 1 }

  /** What the two loops leave in memory, a word of 4 bytes per element: n directory entries from
      address 0, 1024 n table entries from 0x1000, everything else as it was. */
  function MapAt(was: nat, n: nat, k: nat): nat {
    if k < n then PAGE_TBL_BASE + 4096 * k + FLAGS
    else if 1024 <= k < 1024 + 1024 * n then 4096 * (k - 1024) + FLAGS
    else was
  }

  predicate Mapped(was: seq<nat>, w: seq<nat>, n: nat) {
    |w| == |was| && forall k | 0 <= k < |w| :: w[k] == MapAt(was[k], n, k)
  }

  method SetupPaging(w: array<nat>, mem: nat)
    requires 0 < mem < 0x1_0000_0000 && w.Length >= 1024 + 1024 * TableCount(mem)
    modifies w
    ensures Mapped(old(w[..]), w[..], TableCount(mem))
  {
    var n := mem / 0x40_0000;
    if mem % 0x40_0000 != 0 { n := n + 1; }
    assert n <= 1024;
    var ecx, edi: nat, eax := n, 0, PAGE_TBL_BASE + FLAGS;
    while ecx > 0
      invariant edi == n - ecx && ecx >= 0 && eax == PAGE_TBL_BASE + 4096 * edi + FLAGS
      invariant forall k | 0 <= k < w.Length :: w[k] == MapAt(old(w[k]), if k < 1024 then edi else 0, k)
    {
      w[edi] := eax;
      eax := eax + 4096;
      edi := edi + 1;
      ecx := ecx - 1;
    }
    ecx, edi, eax := 1024 * n, PAGE_TBL_BASE / 4, FLAGS;
    while ecx > 0
      invariant edi == 1024 + 1024 * n - ecx && ecx >= 0 && eax == 4096 * (edi - 1024) + FLAGS
      invariant forall k | 0 <= k < w.Length ::
        w[k] == if k < edi then MapAt(old(w[k]), n, k) else old(w[k])
    {
      w[edi] := eax;
      eax := eax + 4096;
      edi := edi + 1;
      ecx := ecx - 1;
    }
  }

  // ---------- what the processor makes of it ----------

  datatype Walk = Fault | Physical(addr: nat, us: bool, rw: bool)

  /** The two-level translation of a linear address, page directory at 0 (section 4.3 of the Intel
      SDM, volume 3): flags of both levels are combined. */
  function Translate(w: seq<nat>, a: nat): Walk
    requires a < 0x1_0000_0000 && |w| >= 1024 && forall k | 0 <= k < |w| :: w[k] < 0x1_0000_0000
  {
    var dir := Decode(w[a / 0x40_0000]);
    var k := dir.frame * 1024 + a / 4096 % 1024;
    if !dir.p || k >= |w| then Fault
    else
      var e := Decode(w[k]);
      if !e.p then Fault else Physical(e.frame * 4096 + a % 4096, dir.us && e.us, dir.rw && e.rw)
  }

  /** An entry made by the loops reads back as its frame, present and open to the user. */
  lemma ReadsBack(f: FrameNr)
    ensures Decode(4096 * f + FLAGS) == Entry(f)
  {
    assert 4096 * f + FLAGS == Value(Entry(f));
    DecodeValue(Entry(f));
  }

  /** Every address below the end of memory, rounded up to 4 MB, is mapped to itself. */
  lemma Identity(was: seq<nat>, w: seq<nat>, mem: nat, a: nat)
    requires 0 < mem < 0x1_0000_0000 && Mapped(was, w, TableCount(mem)) && |w| >= 1024 + 1024 * TableCount(mem)
    requires (forall k | 0 <= k < |w| :: w[k] < 0x1_0000_0000) && a < TableCount(mem) * 0x40_0000
    ensures a < 0x1_0000_0000 && Translate(w, a) == Physical(a, true, true)
  {
    var d, i := a / 0x40_0000, a / 4096 % 1024;
    assert d < TableCount(mem) <= 1024;
    assert a / 4096 == d * 1024 + i;
    ReadsBack(1 + d);
    assert w[d] == 4096 * (1 + d) + FLAGS;
    ReadsBack(a / 4096);
    assert w[(1 + d) * 1024 + i] == 4096 * (a / 4096) + FLAGS;
  }

  /** The tables cover memory and no more than they must. They end before the kernel exactly when memory
      is at most 60 MB, and then the directory entries from 15 on are what they were. */
  lemma TablesFit(mem: nat, d: nat, was: nat)
    requires mem > 0
    ensures mem <= TableCount(mem) * 0x40_0000 < mem + 0x40_0000
    ensures PAGE_TBL_BASE + 4096 * TableCount(mem) <= KERNEL_ENTRY <==> mem <= BootMemory.LARGEST
    ensures mem <= BootMemory.LARGEST && 15 <= d < 1024 ==> MapAt(was, TableCount(mem), d) == was
  {
  }

  // ---------- the state the kernel starts in ----------

  /** The directory and the eight tables that follow it hold the words, MEM_MAP and TASKS are as
      initMemory and initSchedule leave them. */
  ghost predicate Started(m: Memory, w: seq<nat>, mem: nat)
    requires BootMemory.Usable(mem) >= BootMemory.SMALLEST && |w| >= 9 * 1024
  {
    && (forall k | 0 <= k < |w| :: w[k] < 0x1_0000_0000)
    && (forall f: nat, k: nat | f < 9 && k < 1024 :: m.ram[f][k] == Decode(w[1024 * f + k]))
    && m.count == BootMemory.Counts(BootMemory.Base(mem))
    && m.tasks[0] != 0 && forall n | 1 <= n < NR_TASKS :: m.tasks[n] == 0
  }

  /** With 32 MB or more the kernel reaches every frame that MEM_MAP covers. */
  lemma MapWhole(m: Memory, was: seq<nat>, w: seq<nat>, mem: nat, f: nat)
    requires 8 * 0x40_0000 <= mem < 0x1_0000_0000 && |w| >= 1024 + 1024 * TableCount(mem) && f < FRAMES
    requires Mapped(was, w, TableCount(mem)) && Started(m, w, mem)
    ensures KernelMaps(m, f) && m.ram[1 + f / 1024][f % 1024].us
  {
    var d, i := f / 1024, f % 1024;
    assert d < 8 <= TableCount(mem);
    ReadsBack(1 + d);
    assert w[d] == 4096 * (1 + d) + FLAGS;
    assert m.ram[0][d] == Decode(w[1024 * 0 + d]);
    ReadsBack(f);
    assert w[1024 * (1 + d) + i] == 4096 * f + FLAGS;
  }

  lemma MapBooted(m: Memory, was: seq<nat>, w: seq<nat>, mem: nat)
    requires 8 * 0x40_0000 <= mem < 0x1_0000_0000 && |w| >= 1024 + 1024 * TableCount(mem)
    requires Mapped(was, w, TableCount(mem)) && Started(m, w, mem)
    ensures KernelMap(m) && forall i | 0 <= i < LOW_PAGES :: m.ram[1][i].us
  {
    hide KernelMaps, Mapped, Started;
    forall f: nat | f < FRAMES ensures KernelMaps(m, f) && m.ram[1 + f / 1024][f % 1024].us {
      MapWhole(m, was, w, mem, f);
    }
    forall i: nat | i < LOW_PAGES ensures m.ram[1][i].us {
      assert i / 1024 == 0 && i % 1024 == i && KernelMaps(m, i);
    }
  }

  /** A directory entry of the slots from 1 on is present when memory reaches it, or when its word was odd. */
  lemma SlotEntry(m: Memory, was: seq<nat>, w: seq<nat>, mem: nat, d: nat)
    requires BootMemory.SMALLEST <= mem < 0x1_0000_0000 && |w| >= 1024 + 1024 * TableCount(mem) && |w| >= 9 * 1024
    requires Mapped(was, w, TableCount(mem)) && Started(m, w, mem) && 16 <= d < 1024
    ensures m.ram[0][d].p <==> d < TableCount(mem) || was[d] % 2 == 1
  {
    assert m.ram[0][d] == Decode(w[1024 * 0 + d]) && w[d] == MapAt(was[d], TableCount(mem), d);
  }

  /** The runs of `PagingRuns` start here exactly when there are 32 to 64 MB of memory and the words
      that the loops skip, the interrupt vectors of the BIOS among them, do not look like entries
      present. */
  lemma BootState(m: Memory, was: seq<nat>, w: seq<nat>, mem: nat)
    requires BootMemory.SMALLEST <= mem < 0x1_0000_0000 && |w| >= 1024 + 1024 * TableCount(mem) && |w| >= 9 * 1024
    requires Mapped(was, w, TableCount(mem)) && Started(m, w, mem)
    ensures Booted(m, mem) <==>
      8 * 0x40_0000 <= mem <= 16 * 0x40_0000 && forall d | 16 <= d < 1024 :: was[d] % 2 == 0
  {
    hide KernelMap, MapAt, BootMemory.AllExist;
    var n := TableCount(mem);
    BootMemory.FreeFrames(mem);
    if mem >= 8 * 0x40_0000 { MapBooted(m, was, w, mem); }
    forall d: nat | 16 <= d < 1024 ensures m.ram[0][d].p <==> d < n || was[d] % 2 == 1 {
      SlotEntry(m, was, w, mem, d);
    }
    var first: nat := 16;
    assert n > 16 <==> mem > 16 * 0x40_0000;
    assert m.ram[0][first].p <==> first < n || was[first] % 2 == 1;
  }
}
