/** Memory after the buffer cache has stored through NULL: MEM_MAP still calls the frames from 20 to
    24 MB free, but the kernel faults on them. */
module PagingReach {
  import opened Limits
  import opened Words
  import opened PagingModel
  import opened PagingInvariant
  import opened PagingSteps
  import opened PagingFork
  import opened PagingRuns
  import BootMemory

  const LOST := HIT * 1024    // first of the 1024 frames behind the entry that was hit

  predicate Behind(f: nat) { f / 1024 == HIT }

  /** The kernel reaches all frames but those, and none of those is in use. */
  ghost predicate Struck(m: Memory, base: nat) {
    && base <= LOST
    && (forall f: nat | f < FRAMES :: KernelMaps(m, f) <==> !Behind(f))
    && (forall f: nat | Behind(f) :: m.count[f] == 0)
  }

  /** The free frames below. */
  ghost function Below(m: Memory): (s: set<nat>)
    ensures forall f :: f in s <==> f in Free(m) && f < LOST
  {
    set f | f in Free(m) && f < LOST
  }

  ghost function Hidden(): (s: set<nat>)
    ensures forall f :: f in s <==> Behind(f)
    ensures |s| == 1024
  {
    Span(LOST, 1024)
  }

  ghost function Span(lo: nat, n: nat): (s: set<nat>)
    ensures |s| == n && forall f: nat :: f in s <==> lo <= f < lo + n
  {
    if n == 0 then {} else Span(lo, n - 1) + {lo + n - 1}
  }

  lemma Fewer(a: set<nat>, b: set<nat>)
    requires a <= b
    ensures |a| <= |b| && (|a| == |b| ==> a == b)
  {
    assert |b| == |a| + |b - a| by { assert b == a + (b - a); }
  }

  /** Of the lowest n free frames, none lies behind the entry exactly when n lie below it. */
  lemma TakenBelow(m: Memory, m': Memory, base: nat, n: nat)
    requires Struck(m, base) && Taken(m, m', n) && 1 <= n < 1024
    ensures (forall f: nat | Behind(f) :: m'.count[f] == 0) <==> |Below(m)| >= n
  {
    var taken := Free(m) - Free(m');
    assert Free(m) == Free(m') + taken;
    assert |taken| == n;
    if forall f: nat | Behind(f) :: m'.count[f] == 0 {
      var f: nat := LOST;
      assert Behind(f) && f in Free(m');
      Fewer(taken, Below(m));
    } else {
      var f: nat :| Behind(f) && m'.count[f] != 0;
      assert f in taken && f !in Below(m);
      assert Below(m) <= taken - {f};
      Fewer(Below(m), taken - {f});
    }
  }

  lemma {:induction false} NeedBound(m: Memory, from: nat, n: nat)
    requires from + n <= 1024
    ensures Need(m, from, n) <= n
    decreases n
  {
    if n > 0 { NeedBound(m, from + 1, n - 1); }
  }

  /** A fork is right exactly when the frames it needs are free below 20 MB, whatever MEM_MAP says of
      those above: with fewer, the kernel faults on the frame it takes. */
  lemma ForkAfterwards(m: Memory, base: nat, nr: nat, cur: nat, pages: nat, pcb: Words.Page)
    requires ForkPre(m, base, nr, cur, pages) && Struck(m, base)
    ensures var m' := CopyProcess(m, nr, cur, pages, pcb).0;
      Forked(m, m', base, nr, cur, pages, pcb) <==> nr <= 61 && |Below(m)| >= 1 + Need(m, 16 * cur, Tables(pages))
  {
    hide CopyProcess, Inv, Copies, KernelMaps;
    var n := 1 + Need(m, 16 * cur, Tables(pages));
    NeedBound(m, 16 * cur, Tables(pages));
    ForkOk(m, base, nr, cur, pages, pcb);
    var (m', ok) := CopyProcess(m, nr, cur, pages, pcb);
    Fewer(Hidden(), Free(m));
    assert ok;
    TakenBelow(m, m', base, n);
    assert Reaches(m, m', base, true) <==> forall f: nat | Behind(f) :: m'.count[f] == 0;
  }

  /** A write fault takes the lowest free frame, or none. */
  lemma FaultTakes(m: Memory, base: nat, d: nat, i: nat)
    requires Inv(m, base) && 16 <= d < 1024 && i < 1024 && Pte(m, d, i).p && Free(m) != {}
    ensures var f := Pte(m, d, i).frame; var alone := f >= base && Refs(m, f) == {Page(d, i)};
      var (m', ok) := UnWriteProtectPage(m, m.ram[0][d].frame, i);
      && ok && GetFreePage(m).1 in Free(m)
      && forall g: nat | base <= g < FRAMES ::
           m'.count[g] != 0 <==> m.count[g] != 0 || (!alone && g == GetFreePage(m).1)
  {
    hide Exclusive, Slotted;
    var f, t := Pte(m, d, i).frame, m.ram[0][d].frame;
    assert Item(m, t, i) == Pte(m, d, i);
    FreeIsSearched(m, base);
    FreeFrame(m, base);
    if f >= base {
      assert Page(d, i) in Refs(m, f);
      CountBound(m, base, f);
      if |Refs(m, f)| == 1 { One(Refs(m, f), Page(d, i)); }
    }
  }

  /** A write fault is handled exactly when the frame is the process's own or one is free below 20 MB. */
  lemma FaultAfterwards(m: Memory, base: nat, a: Addr, w: Word)
    requires Inv(m, base) && Struck(m, base) && a.Valid() && 16 <= a.d
    requires Pte(m, a.d, a.i).p && !Pte(m, a.d, a.i).rw
    ensures var f := Pte(m, a.d, a.i).frame;
      Contained(m, base, Write(a, w)) <==> (f >= base && Refs(m, f) == {Page(a.d, a.i)}) || Below(m) != {}
  {
    hide Inv, KernelMaps, UnWriteProtectPage;
    var hit: nat := LOST;
    assert Behind(hit) && hit in Free(m);
    FaultTakes(m, base, a.d, a.i);
    var t := GetFreePage(m).1;
    var m1 := UnWriteProtectPage(m, m.ram[0][a.d].frame, a.i).0;
    assert Step(m, Write(a, w)).0.count == m1.count;
    assert t == FirstFree(m.count, 0) <= hit;
    assert Below(m) != {} <==> t in Below(m) by {
      if x :| x in Below(m) { assert t <= x; }
    }
    assert t in Below(m) <==> !Behind(t);
  }

  /** The frames behind the entry stay unused over every run that goes on. */
  lemma {:induction false} StruckRun(m: Memory, base: nat, es: seq<Event>)
    requires Inv(m, base) && Struck(m, base) && Legal(m, base, es)
    ensures Struck(Run(m, base, es), base)
    decreases |es|
  {
    hide Inv, KernelMaps, Contained, Step, Struck;
    if es != [] {
      StruckStep(m, base, es[0]);
      StruckRun(Step(m, es[0]).0, base, es[1..]);
    }
  }

  lemma StruckStep(m: Memory, base: nat, e: Event)
    requires Inv(m, base) && Struck(m, base) && Enabled(m, base, e) && Contained(m, base, e)
    ensures Inv(Step(m, e).0, base) && Struck(Step(m, e).0, base)
  {
    hide Inv, KernelMaps, CopyProcess, UnWriteProtectPage;
    StepOk(m, base, e);
    var hit: nat := LOST;
    assert Behind(hit);
  }

  /** So it is when the first buffer is assigned before anything else has been allocated. */
  lemma BootStruck(m: Memory, mem: int, b: nat)
    requires Booted(m, mem) && BootMemory.HeaderAt(b) < 0x1_0000_0000
    ensures var base := BootMemory.Base(mem); var m' := Step(m, DirectoryWrite(b)).0;
      Inv(m', base) && Struck(m', base)
  {
    hide Counted, Exclusive, Ranged, Slotted, Refines, KernelMaps;
    var base := BootMemory.Base(mem);
    BootInv(m, mem);
    StepOk(m, base, DirectoryWrite(b));
    BootMemory.FreeFrames(mem);
    assert forall f: nat | Behind(f) :: f >= base;
  }
}
