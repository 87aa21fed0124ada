/** Runs of forks, user stores with their write faults, and kernel stores: copy-on-write as a
    refinement of processes that each have a memory of their own. */
module PagingRuns {
  import opened Limits
  import opened Words
  import opened PagingModel
  import opened PagingInvariant
  import opened PagingSteps
  import opened PagingFork
  import BootMemory
  import Descriptors

  /** Slot cur forks into slot nr; a process stores a word; the kernel (or slot 0) stores a word
      in low memory, in the buffer cache or in a PCB; the buffer cache stores the address of header b
      through NULL, which is to say into entry 5 of the page directory (`NullStore` says when). */
  datatype Event =
    | Fork(nr: nat, cur: nat, pages: nat, pcb: Words.Page)
    | Write(a: Addr, w: Word)
    | KernelWrite(f: nat, off: nat, w: Word)
    | DirectoryWrite(b: nat)

  const HIT := 5    // the directory entry at address 0x14

  ghost predicate Enabled(m: Memory, base: nat, e: Event) {
    match e
    case Fork(nr, cur, pages, pcb) => ForkPre(m, base, nr, cur, pages)
    case Write(a, w) => a.Valid() && 16 <= a.d
    case KernelWrite(f, off, w) =>
      off < 1024 && (16 <= f < base || exists n :: 1 <= n < NR_TASKS && m.tasks[n] == f != 0)
    case DirectoryWrite(b) => BootMemory.HeaderAt(b) < 0x1_0000_0000
  }

  /** Memory after the event, and false when a fork failed or a fault found no frame. */
  function Step(m: Memory, e: Event): (Memory, bool)
    requires e.Fork? ==> e.nr < NR_TASKS && e.cur < NR_TASKS && 1 <= e.pages <= 0x4000
    requires e.Write? ==> e.a.Valid()
    requires e.KernelWrite? ==> e.off < 1024
    requires e.DirectoryWrite? ==> BootMemory.HeaderAt(e.b) < 0x1_0000_0000
  {
    match e
    case Fork(nr, cur, pages, pcb) => CopyProcess(m, nr, cur, pages, pcb)
    case Write(a, w) => Store(m, a, w)
    case KernelWrite(f, off, w) => (Put(m, f, off, w), true)
    case DirectoryWrite(b) => (Put(m, 0, HIT, Decode(BootMemory.HeaderAt(b))), true)
  }

  // ---------- the specification: private memories ----------

  /** One page after a store of w at word off; `low` is physical memory, for pages shared with slot 0. */
  function Stored(v: View, low: seq<Words.Page>, off: nat, w: Word): View
    requires off < 1024 && |low| == FRAMES
  {
    match v
    case Absent => Absent
    case Low(f) => if f < FRAMES then Own(low[f][off := w]) else v
    case Own(p) => Own(p[off := w])
  }

  /** The page (d, i) after event e when every process had a memory of its own. */
  ghost function Private(m: Memory, e: Event, ok: bool, d: nat, i: nat): View
    requires 16 <= d < 1024 && i < 1024
    requires e.Fork? ==> e.nr < NR_TASKS && e.cur < NR_TASKS && 1 <= e.pages <= 0x4000
    requires e.Write? ==> e.a.Valid()
  {
    if !ok then ViewAt(m, d, i)
    else match e
      case Fork(nr, cur, pages, pcb) =>
        if SlotOf(d) != nr then ViewAt(m, d, i)
        else if d - 16 * nr < Tables(pages) then Copied(m, cur, d - 16 * nr, i) else Absent
      case Write(a, w) => if a.d == d && a.i == i then Stored(ViewAt(m, d, i), m.ram, a.off, w) else ViewAt(m, d, i)
      case KernelWrite(_, _, _) => ViewAt(m, d, i)
      case DirectoryWrite(_) => ViewAt(m, d, i)
  }

  // ---------- stores ----------

  /** A store through a writable entry reaches that page of that process and nothing else. */
  lemma StoreDirect(m: Memory, base: nat, a: Addr, w: Word)
    requires Inv(m, base) && a.Valid() && 16 <= a.d && Pte(m, a.d, a.i).p && Pte(m, a.d, a.i).rw
    ensures var f := Pte(m, a.d, a.i).frame; var m' := Put(m, f, a.off, w);
      && base <= f < FRAMES && m.count[f] == 1
      && Inv(m', base) && m'.tasks == m.tasks && m'.ram[0] == m.ram[0]
      && ViewAt(m', a.d, a.i) == Stored(ViewAt(m, a.d, a.i), m.ram, a.off, w)
      && (forall d, i | 16 <= d < 1024 && 0 <= i < 1024 && (d != a.d || i != a.i) :: SameAt(m, m', d, i))
      && (forall g | 1 <= g < base && g < FRAMES :: m'.ram[g] == m.ram[g])
  {
    var r := Page(a.d, a.i);
    var f := Pte(m, a.d, a.i).frame;
    assert f >= base;
    forall q | q in Refs(m, f) ensures q == r {
      if q != r { Meet(m, base, r, q); }
    }
    assert Refs(m, f) == {r};
    assert forall d | 16 <= d < 1024 :: Table(d) in Refs(m, f) <==> Target(m, Table(d)) == f;
    PutData(m, base, f, a.off, w);
    var m' := Put(m, f, a.off, w);
    forall d, i | 16 <= d < 1024 && 0 <= i < 1024 && (d != a.d || i != a.i) ensures SameAt(m, m', d, i) {
      assert Page(d, i) in Refs(m, f) <==> Target(m, Page(d, i)) == f;
    }
  }

  /** Slot n keeps its PCB, in which only the kernel's own stores change a word. */
  ghost predicate PcbAfter(m: Memory, m': Memory, e: Event, n: nat)
    requires n < NR_TASKS && (e.KernelWrite? ==> e.off < 1024)
  {
    && m'.tasks[n] == m.tasks[n]
    && (m.tasks[n] < FRAMES ==>
          m'.ram[m.tasks[n]] ==
            var p := m.ram[m.tasks[n]];
            if e.KernelWrite? && e.f == m.tasks[n] then p[e.off := e.w] else p)
  }

  /** Every page shows what it would if each process had its own memory, a child has the PCB made for
      it and every other process its own, and low memory and the kernel's part of the page directory
      are kept, but for what the kernel stores there. */
  ghost predicate Refines(m: Memory, m': Memory, base: nat, e: Event, ok: bool)
    requires e.Fork? ==> e.nr < NR_TASKS && e.cur < NR_TASKS && 1 <= e.pages <= 0x4000
    requires e.Write? ==> e.a.Valid()
    requires e.KernelWrite? ==> e.off < 1024
  {
    && (forall d, i | 16 <= d < 1024 && 0 <= i < 1024 :: ViewAt(m', d, i) == Private(m, e, ok, d, i))
    && (forall f | 1 <= f < base && f < FRAMES && !(e.KernelWrite? && e.f == f) :: m'.ram[f] == m.ram[f])
    && (e.KernelWrite? && e.f < FRAMES ==> m'.ram[e.f] == m.ram[e.f][e.off := e.w])
    && (forall n | 1 <= n < NR_TASKS && m.tasks[n] != 0 :: PcbAfter(m, m', e, n))
    && (e.Fork? && ok ==> 0 < m'.tasks[e.nr] < FRAMES && m'.ram[m'.tasks[e.nr]] == e.pcb)
    && (forall d | 0 <= d < 16 && !(e.DirectoryWrite? && d == HIT) :: m'.ram[0][d] == m.ram[0][d])
  }

  /** A write fault gives the page to its process alone, without changing what anyone sees. It
      fails only when the page must be copied and no frame is free. */
  lemma FaultOk(m: Memory, base: nat, d: nat, i: nat)
    requires Inv(m, base) && HasTable(m, d) && i < 1024 && Pte(m, d, i).p
    ensures var f := Pte(m, d, i).frame; var alone := f >= base && Refs(m, f) == {Page(d, i)};
      var (m', ok) := UnWriteProtectPage(m, m.ram[0][d].frame, i);
      && (ok <==> alone || Free(m) != {})
      && (!ok ==> m' == m)
      && (ok ==>
            && Inv(m', base) && m'.tasks == m.tasks && m'.ram[0] == m.ram[0]
            && Pte(m', d, i).p && Pte(m', d, i).rw && ViewAt(m', d, i) == Own(m.ram[f])
            && (forall e, j | 16 <= e < 1024 && 0 <= j < 1024 && (e != d || j != i) :: SameAt(m, m', e, j))
            && (forall g | 1 <= g < base && g < FRAMES :: m'.ram[g] == m.ram[g]))
  {
    hide Exclusive;
    var f := Pte(m, d, i).frame;
    var t := m.ram[0][d].frame;
    assert Item(m, t, i) == Pte(m, d, i);
    assert f >= base ==> Page(d, i) in Refs(m, f);
    FreeIsSearched(m, base);
    FreeFrame(m, base);
    if f >= KERNEL_FRAMES && CountOf(m, f) == 1 {
      One(Refs(m, f), Page(d, i));
      AllowStep(m, base, d, i);
    } else if GetFreePage(m).1 != 0 {
      SplitStep(m, base, d, i);
    }
  }

  lemma One(s: set<Ref>, r: Ref)
    requires r in s && |s| == 1
    ensures s == {r}
  {
    assert |s - {r}| == 0;
  }

  /** A user store, with its fault, comes near no PCB. */
  lemma StorePcb(m: Memory, base: nat, a: Addr, w: Word, n: nat)
    requires Inv(m, base) && a.Valid() && 16 <= a.d && 1 <= n < NR_TASKS && m.tasks[n] != 0
    ensures PcbAfter(m, Store(m, a, w).0, Write(a, w), n)
  {
    hide Counted, Exclusive, Slotted;
    var e := Pte(m, a.d, a.i);
    PcbFrame(m, base, n);
    if e.p && !e.rw {
      FaultOk(m, base, a.d, a.i);
      var (m1, ok) := UnWriteProtectPage(m, m.ram[0][a.d].frame, a.i);
      assert m1.ram[m.tasks[n]] == m.ram[m.tasks[n]];
      if ok { PcbFrame(m1, base, n); }
    }
  }

  /** A user store. */
  lemma StoreOk(m: Memory, base: nat, a: Addr, w: Word)
    requires Inv(m, base) && a.Valid() && 16 <= a.d
    ensures var r := Store(m, a, w);
      && Inv(r.0, base) && r.0.tasks == m.tasks && Refines(m, r.0, base, Write(a, w), r.1)
      && (!r.1 ==> r.0 == m && Free(m) == {})
  {
    hide Inv, PcbAfter;
    forall n | 1 <= n < NR_TASKS && m.tasks[n] != 0 ensures PcbAfter(m, Store(m, a, w).0, Write(a, w), n) {
      StorePcb(m, base, a, w, n);
    }
    var e := Pte(m, a.d, a.i);
    if e.p {
      if e.rw {
        StoreDirect(m, base, a, w);
        var m' := Store(m, a, w).0;
        forall d, i | 16 <= d < 1024 && 0 <= i < 1024 && (d != a.d || i != a.i)
          ensures ViewAt(m', d, i) == ViewAt(m, d, i)
        {
          assert SameAt(m, m', d, i);
        }
      } else {
        FaultOk(m, base, a.d, a.i);
        var (m1, ok) := UnWriteProtectPage(m, m.ram[0][a.d].frame, a.i);
        if ok {
          StoreDirect(m1, base, a, w);
          var m' := Store(m, a, w).0;
          Faulted(m, base, a.d, a.i);
          forall d, i | 16 <= d < 1024 && 0 <= i < 1024 && (d != a.d || i != a.i)
            ensures ViewAt(m', d, i) == ViewAt(m, d, i)
          {
            assert SameAt(m, m1, d, i) && SameAt(m1, m', d, i);
          }
        }
      }
    }
  }

  /** The frame a fault copies from is the one the page shows. */
  lemma Faulted(m: Memory, base: nat, d: nat, i: nat)
    requires Inv(m, base) && 16 <= d < 1024 && i < 1024 && Pte(m, d, i).p
    ensures var f := Pte(m, d, i).frame;
      f < FRAMES && ViewAt(m, d, i) == if f < KERNEL_FRAMES then Low(f) else Own(m.ram[f])
  {
  }

  // ---------- every event ----------

  lemma ForkRefines(m: Memory, m': Memory, base: nat, e: Event, ok: bool)
    requires e.Fork? && ForkPre(m, base, e.nr, e.cur, e.pages)
    requires if ok then Forked(m, m', base, e.nr, e.cur, e.pages, e.pcb) else Unforked(m, m', base)
    ensures Refines(m, m', base, e, ok)
  {
    hide Inv;
    forall d, i | 16 <= d < 1024 && 0 <= i < 1024 ensures ViewAt(m', d, i) == Private(m, e, ok, d, i) {
      if !ok {
        assert SameAt(m, m', d, i);
      } else {
        var n := Tables(e.pages);
        if SlotOf(d) != e.nr {
          assert SameAt(m, m', d, i);
        } else if d - 16 * e.nr < n {
          assert ViewAt(m', 16 * e.nr + (d - 16 * e.nr), i) == Copied(m, e.cur, d - 16 * e.nr, i);
        }
      }
    }
  }

  lemma KernelWriteOk(m: Memory, base: nat, e: Event)
    requires Inv(m, base) && e.KernelWrite? && Enabled(m, base, e)
    ensures var m' := Put(m, e.f, e.off, e.w); Inv(m', base) && m'.tasks == m.tasks && Refines(m, m', base, e, true)
  {
    var m' := Put(m, e.f, e.off, e.w);
    var f := e.f;
    forall r | IsRef(r) && !r.Pcb? ensures Target(m, r) != f || (f < base && r.Page?) {
      if n :| 1 <= n < NR_TASKS && m.tasks[n] == f != 0 {
        if Target(m, r) == f { Meet(m, base, Pcb(n), r); }
      }
    }
    assert forall d | 16 <= d < 1024 :: Target(m, Table(d)) != f;
    PutData(m, base, f, e.off, e.w);
    forall d, i | 16 <= d < 1024 && 0 <= i < 1024 ensures ViewAt(m', d, i) == ViewAt(m, d, i) {
      if Target(m, Page(d, i)) != f { assert SameAt(m, m', d, i); }
    }
  }

  lemma DirectoryWriteOk(m: Memory, base: nat, b: nat)
    requires Inv(m, base) && BootMemory.HeaderAt(b) < 0x1_0000_0000
    ensures var e := DirectoryWrite(b); var m' := Step(m, e).0;
      Inv(m', base) && m'.tasks == m.tasks && Refines(m, m', base, e, true)
  {
    var m' := Step(m, DirectoryWrite(b)).0;
    forall d, i | 16 <= d < 1024 && 0 <= i < 1024 ensures Pte(m', d, i) == Pte(m, d, i) && SameAt(m, m', d, i) {}
    forall r | IsRef(r) ensures Target(m', r) == Target(m, r) && Writable(m', r) == Writable(m, r) {}
    assert forall f: nat :: Refs(m', f) == Refs(m, f);
  }

  /** The event runs to its end and stores nowhere but where it should: the kernel reaches the frames
      it works on, and a fork that succeeds has its descriptors in the GDT. */
  ghost predicate Contained(m: Memory, base: nat, e: Event)
    requires Enabled(m, base, e)
  {
    var (m', ok) := Step(m, e);
    match e
    case Fork(nr, _, _, _) => Reaches(m, m', base, ok) && (ok ==> Descriptors.Fits(nr))
    case Write(a, _) => Pte(m, a.d, a.i).p && !Pte(m, a.d, a.i).rw ==> Reaches(m, m', base, ok)
    case KernelWrite(f, _, _) => f < FRAMES ==> KernelMaps(m, f)
    case DirectoryWrite(_) => true
  }

  /** As long as the kernel's map is whole, only a fork past slot 61 is not contained. */
  lemma WholeMap(m: Memory, base: nat, e: Event)
    requires Enabled(m, base, e) && KernelMap(m)
    ensures Contained(m, base, e) <==> !(e.Fork? && Step(m, e).1 && e.nr > 61)
  {
    hide Step, ForkPre;
  }

  /** The kernel's map changes with the store through NULL only, and then loses the 4 MB from 20 MB on. */
  lemma MapStep(m: Memory, m': Memory, base: nat, e: Event, ok: bool, f: nat)
    requires Inv(m, base) && Enabled(m, base, e) && Refines(m, m', base, e, ok) && f < FRAMES
    requires e.DirectoryWrite? ==> m' == Step(m, e).0
    ensures KernelMaps(m', f) <==> KernelMaps(m, f) && !(e.DirectoryWrite? && f / 1024 == HIT)
  {
    hide Counted, Exclusive, Slotted, ForkPre, ViewAt, Private, CopyProcess, Store;
    assert e.KernelWrite? ==> e.f >= 16;
    if e.DirectoryWrite? {
      HeaderIsEven(e.b);
    }
  }

  /** The address of a header, taken for a directory entry, is one that is not present. */
  lemma HeaderIsEven(b: nat)
    requires BootMemory.HeaderAt(b) < 0x1_0000_0000
    ensures !Decode(BootMemory.HeaderAt(b)).p
  {
  }

  /** One event: the invariant is kept, every process sees what it would see with a memory of its
      own, a process once made stays, and so does the kernel's map but for the store through NULL. */
  lemma StepOk(m: Memory, base: nat, e: Event)
    requires Inv(m, base) && Enabled(m, base, e) && Contained(m, base, e)
    ensures var r := Step(m, e);
      && Inv(r.0, base) && Refines(m, r.0, base, e, r.1)
      && (forall n | 0 <= n < NR_TASKS && m.tasks[n] != 0 :: r.0.tasks[n] != 0)
      && forall f: nat | f < FRAMES ::
           KernelMaps(r.0, f) <==> KernelMaps(m, f) && !(e.DirectoryWrite? && f / 1024 == HIT)
  {
    hide Counted, Exclusive, Ranged, Slotted, Refines, KernelMaps, Put;
    var r := Step(m, e);
    match e {
      case Fork(nr, cur, pages, pcb) =>
        ForkOk(m, base, nr, cur, pages, pcb);
        ForkRefines(m, r.0, base, e, r.1);
      case Write(a, w) => StoreOk(m, base, a, w);
      case KernelWrite(_, _, _) => KernelWriteOk(m, base, e);
      case DirectoryWrite(b) => DirectoryWriteOk(m, base, b);
    }
    forall f: nat | f < FRAMES
      ensures KernelMaps(r.0, f) <==> KernelMaps(m, f) && !(e.DirectoryWrite? && f / 1024 == HIT)
    {
      MapStep(m, r.0, base, e, r.1, f);
    }
  }

  // ---------- runs ----------

  /** Events that can happen one after the other from m on. A store that finds no frame hangs the
      kernel, so nothing follows it; nor is anything said of what follows an event not contained. */
  ghost predicate Legal(m: Memory, base: nat, es: seq<Event>)
    decreases |es|
  {
    es == [] ||
    (Enabled(m, base, es[0]) && (es[0].Write? ==> Step(m, es[0]).1) && Contained(m, base, es[0])
      && Legal(Step(m, es[0]).0, base, es[1..]))
  }

  ghost function Run(m: Memory, base: nat, es: seq<Event>): Memory
    requires Legal(m, base, es)
    decreases |es|
  {
    if es == [] then m else Run(Step(m, es[0]).0, base, es[1..])
  }

  /** The invariant holds after every run. */
  lemma {:induction false} RunInv(m: Memory, base: nat, es: seq<Event>)
    requires Inv(m, base) && Legal(m, base, es)
    ensures Inv(Run(m, base, es), base)
    decreases |es|
  {
    if es != [] {
      StepOk(m, base, es[0]);
      RunInv(Step(m, es[0]).0, base, es[1..]);
    }
  }

  /** Page p after the stores among es that go to page (d, i): nothing else is looked at. */
  ghost function OwnStores(p: Words.Page, es: seq<Event>, d: nat, i: nat): Words.Page
    decreases |es|
  {
    if es == [] then p
    else if es[0].Write? && es[0].a.d == d && es[0].a.i == i && es[0].a.off < 1024
      then OwnStores(p[es[0].a.off := es[0].w], es[1..], d, i)
      else OwnStores(p, es[1..], d, i)
  }

  /** Over any run, a page that a live process owns contains its own stores and nothing else,
      whatever forks, faults and stores of other processes happen in between. */
  lemma {:induction false} RunPrivate(m: Memory, base: nat, es: seq<Event>, d: nat, i: nat)
    requires Inv(m, base) && Legal(m, base, es) && 16 <= d < 1024 && i < 1024 && m.tasks[SlotOf(d)] != 0
    requires ViewAt(m, d, i).Own?
    ensures ViewAt(Run(m, base, es), d, i) == Own(OwnStores(ViewAt(m, d, i).words, es, d, i))
    decreases |es|
  {
    if es != [] {
      StepOk(m, base, es[0]);
      var m1 := Step(m, es[0]).0;
      assert ViewAt(m1, d, i) == Private(m, es[0], Step(m, es[0]).1, d, i);
      RunPrivate(m1, base, es[1..], d, i);
    }
  }

  /** Page p after the kernel's stores among es to frame f. */
  ghost function KernelStores(p: Words.Page, es: seq<Event>, f: nat): Words.Page
    decreases |es|
  {
    if es == [] then p
    else KernelStores(
      if es[0].KernelWrite? && es[0].f == f && es[0].off < 1024 then p[es[0].off := es[0].w] else p, es[1..], f)
  }

  /** Over any run a live process keeps its PCB, which contains the kernel's own stores and nothing
      else: no fork, fault or user store touches it. */
  lemma {:induction false} RunPcb(m: Memory, base: nat, es: seq<Event>, n: nat)
    requires Inv(m, base) && Legal(m, base, es) && 1 <= n < NR_TASKS && m.tasks[n] != 0
    ensures Run(m, base, es).tasks[n] == m.tasks[n] < FRAMES
    ensures Run(m, base, es).ram[m.tasks[n]] == KernelStores(m.ram[m.tasks[n]], es, m.tasks[n])
    decreases |es|
  {
    hide Counted, Exclusive, Slotted, Step, Contained, KernelMaps;
    if es != [] {
      var m1 := Step(m, es[0]).0;
      StepOk(m, base, es[0]);
      assert PcbAfter(m, m1, es[0], n);
      RunPcb(m1, base, es[1..], n);
    }
  }

  /** Without a store of its own to the page, a live process sees there what it saw: contents of its
      own, nothing, or the same frame of low memory, which alone follows slot 0. */
  lemma {:induction false} RunIsolated(m: Memory, base: nat, es: seq<Event>, d: nat, i: nat)
    requires Inv(m, base) && Legal(m, base, es) && 16 <= d < 1024 && i < 1024 && m.tasks[SlotOf(d)] != 0
    requires forall k | 0 <= k < |es| :: !(es[k].Write? && es[k].a.d == d && es[k].a.i == i)
    ensures ViewAt(Run(m, base, es), d, i) == ViewAt(m, d, i)
    decreases |es|
  {
    if es != [] {
      StepOk(m, base, es[0]);
      var m1 := Step(m, es[0]).0;
      assert ViewAt(m1, d, i) == Private(m, es[0], Step(m, es[0]).1, d, i);
      RunIsolated(m1, base, es[1..], d, i);
    }
  }

  /** The first store of a process to a page shared with slot 0 gives it a copy of that moment. */
  lemma LowPageSplits(m: Memory, base: nat, a: Addr, w: Word)
    requires Inv(m, base) && a.Valid() && 16 <= a.d && ViewAt(m, a.d, a.i).Low? && Store(m, a, w).1
    ensures ViewAt(Store(m, a, w).0, a.d, a.i) == Own(m.ram[ViewAt(m, a.d, a.i).frame][a.off := w])
  {
    StoreOk(m, base, a, w);
  }

  // ---------- what MEM_MAP says ----------

  /** A count is the number of references, between 0 and 63; it is 0 exactly for a frame that
      nothing refers to, and 1 with no other reference for every frame a process may write. */
  lemma CountsExact(m: Memory, base: nat, f: nat, d: nat, i: nat)
    requires Inv(m, base) && base <= f < FRAMES && 16 <= d < 1024 && i < 1024
    ensures m.count[f] == |Refs(m, f)| && 0 <= m.count[f] <= NR_TASKS - 1
    ensures m.count[f] == 0 <==> forall r | IsRef(r) :: Target(m, r) != f
    ensures Pte(m, d, i).p && Pte(m, d, i).rw ==>
      Pte(m, d, i).frame >= KERNEL_FRAMES && Refs(m, Pte(m, d, i).frame) == {Page(d, i)}
  {
    CountBound(m, base, f);
    if m.count[f] != 0 {
      var r :| r in Refs(m, f);
    }
    if Pte(m, d, i).p && Pte(m, d, i).rw {
      forall q | q in Refs(m, Pte(m, d, i).frame) ensures q == Page(d, i) {
        if q != Page(d, i) { Meet(m, base, Page(d, i), q); }
      }
    }
  }

  // ---------- the first state ----------

  /** After setupPageing, initMemory and initSchedule with `mem` bytes of memory: all frames called
      free exist and the kernel reaches them, nothing is counted but the kernel and the cache, slot 0
      is alone, and no directory entry of any other slot is present. */
  ghost predicate Booted(m: Memory, mem: int) {
    && BootMemory.Usable(mem) >= BootMemory.SMALLEST && BootMemory.AllExist(mem)
    && m.count == BootMemory.Counts(BootMemory.Base(mem)) && KernelMap(m)
    && m.tasks[0] != 0 && (forall n | 1 <= n < NR_TASKS :: m.tasks[n] == 0)
    && (forall i | 0 <= i < LOW_PAGES :: m.ram[1][i].us)
    && (forall d | 16 <= d < 1024 :: !m.ram[0][d].p)
  }

  lemma BootInv(m: Memory, mem: int)
    requires Booted(m, mem)
    ensures Inv(m, BootMemory.Base(mem))
  {
    var base := BootMemory.Base(mem);
    BootMemory.FreeFrames(mem);
    forall f: nat | base <= f < FRAMES ensures m.count[f] == |Refs(m, f)| {
      assert Refs(m, f) == {};
    }
    forall i: nat | i < LOW_PAGES ensures m.ram[1][i].p && m.ram[1][i].frame == i {
      assert KernelMaps(m, i);
    }
    assert KernelMaps(m, 0);
  }

  /** The store through NULL happens somewhere in es. */
  predicate Strikes(es: seq<Event>) { exists k :: 0 <= k < |es| && es[k].DirectoryWrite? }

  lemma {:induction false} RunMap(m: Memory, base: nat, es: seq<Event>, f: nat)
    requires Inv(m, base) && Legal(m, base, es) && f < FRAMES
    ensures KernelMaps(Run(m, base, es), f) <==> KernelMaps(m, f) && !(Strikes(es) && f / 1024 == HIT)
    decreases |es|
  {
    hide Counted, Exclusive, Ranged, Slotted, Step, KernelMaps, Contained, Refines;
    if es != [] {
      StepOk(m, base, es[0]);
      RunMap(Step(m, es[0]).0, base, es[1..], f);
      assert Strikes(es) <==> es[0].DirectoryWrite? || Strikes(es[1..]) by {
        assert forall k | 0 <= k < |es| - 1 :: es[1..][k] == es[k + 1];
        if k :| 0 <= k < |es| && es[k].DirectoryWrite? && k > 0 { assert es[1..][k - 1].DirectoryWrite?; }
      }
    }
  }

  /** From power-on, over every run: the invariant, hence all of the above; every page, table and PCB
      lies in memory that there is; and the kernel's map is whole exactly until the buffer cache stores
      through NULL: from then on it lacks the 4 MB from 20 MB on. */
  lemma Always(m: Memory, mem: int, es: seq<Event>, r: Ref)
    requires Booted(m, mem) && Legal(m, BootMemory.Base(mem), es) && IsRef(r)
    ensures var m' := Run(m, BootMemory.Base(mem), es);
      && Inv(m', BootMemory.Base(mem)) && (Target(m', r) + 1) * 4096 <= BootMemory.Usable(mem) <= mem
      && (KernelMap(m') <==> !Strikes(es))
      && forall f: nat | f < FRAMES :: KernelMaps(m', f) <==> !(Strikes(es) && f / 1024 == HIT)
  {
    hide KernelMaps, Counted, Exclusive, Slotted, Strikes;
    var base := BootMemory.Base(mem);
    var m' := Run(m, base, es);
    BootInv(m, mem);
    RunInv(m, base, es);
    BootMemory.FreeFrames(mem);
    assert Target(m', r) < FRAMES;
    forall f: nat | f < FRAMES ensures KernelMaps(m', f) <==> !(Strikes(es) && f / 1024 == HIT) {
      RunMap(m, base, es, f);
    }
    var hit: nat := HIT * 1024;
    assert hit / 1024 == HIT && (KernelMaps(m', hit) <==> !Strikes(es));
  }
}
