/** References to frames, and the invariant that ties MEM_MAP, page tables and PCBs together. */
module PagingInvariant {
  import opened Limits
  import opened Words
  import opened PagingModel

  /** Everything of the slots from 1 on that can refer to a frame: a page-table entry, a
      directory entry (it refers to a table) and a PCB pointer. */
  datatype Ref = Page(d: nat, i: nat) | Table(d: nat) | Pcb(n: nat)

  predicate IsRef(r: Ref) {
    match r
    case Page(d, i) => 16 <= d < 1024 && i < 1024
    case Table(d) => 16 <= d < 1024
    case Pcb(n) => 1 <= n < NR_TASKS
  }

  ghost function AllRefs(): (s: set<Ref>)
    ensures forall r :: r in s <==> IsRef(r)
  {
    (set d: nat, i: nat | 16 <= d < 1024 && i < 1024 :: Page(d, i))
    + (set d: nat | 16 <= d < 1024 :: Table(d))
    + (set n: nat | 1 <= n < NR_TASKS :: Pcb(n))
  }

  /** The frame that r refers to, 0 if none. */
  function Target(m: Memory, r: Ref): nat
    requires IsRef(r)
  {
    match r
    case Page(d, i) => if Pte(m, d, i).p then Pte(m, d, i).frame else 0
    case Table(d) => if m.ram[0][d].p then m.ram[0][d].frame else 0
    case Pcb(n) => m.tasks[n]
  }

  predicate Writable(m: Memory, r: Ref)
    requires IsRef(r)
  {
    r.Page? && Pte(m, r.d, r.i).p && Pte(m, r.d, r.i).rw
  }

  /** The references to frame f. */
  ghost function Refs(m: Memory, f: nat): (s: set<Ref>)
    ensures forall r :: r in s <==> IsRef(r) && Target(m, r) == f
  {
    set r | r in AllRefs() && Target(m, r) == f
  }

  // ---------- the invariant ----------

  /** MEM_MAP counts references; the frames below `base` are out of its reach for ever. */
  ghost predicate Counted(m: Memory, base: nat) {
    && (forall f | 0 <= f < base && f < FRAMES :: m.count[f] == 100)
    && (forall f: nat | base <= f < FRAMES :: m.count[f] == |Refs(m, f)|)
  }

  /** Two references meet only in read-only page entries of different slots. */
  ghost predicate Exclusive(m: Memory, base: nat) {
    forall r, q | IsRef(r) && IsRef(q) && r != q && Target(m, r) == Target(m, q) && Target(m, r) >= base ::
      r.Page? && q.Page? && SlotOf(r.d) != SlotOf(q.d) && !Writable(m, r) && !Writable(m, q)
  }

  /** Where references point: tables and PCBs to frames MEM_MAP hands out, pages there or,
      read-only, into the low memory slot 0 was forked from. */
  ghost predicate Ranged(m: Memory, base: nat) {
    && (forall d | 16 <= d < 1024 && m.ram[0][d].p ::
          base <= m.ram[0][d].frame < FRAMES && m.ram[0][d].us && m.ram[0][d].rw)
    && (forall n | 1 <= n < NR_TASKS && m.tasks[n] != 0 :: base <= m.tasks[n] < FRAMES)
    && (forall d, i | 16 <= d < 1024 && 0 <= i < 1024 && Pte(m, d, i).p ::
          Pte(m, d, i).us &&
          if Pte(m, d, i).frame < base then Pte(m, d, i).frame < LOW_PAGES && !Pte(m, d, i).rw
          else Pte(m, d, i).frame < FRAMES)
  }

  /** The identity map that slot 0 runs on, and no tables for a slot without a process. */
  ghost predicate Slotted(m: Memory) {
    && m.tasks[0] != 0
    && m.ram[0][0].p && m.ram[0][0].frame == 1
    && (forall i | 0 <= i < LOW_PAGES :: m.ram[1][i].p && m.ram[1][i].frame == i && m.ram[1][i].us)
    && (forall d | 16 <= d < 1024 && m.ram[0][d].p :: m.tasks[SlotOf(d)] != 0)
  }

  /** `base` is the first frame that getFreePage may hand out. */
  ghost predicate Inv(m: Memory, base: nat) {
    KERNEL_FRAMES <= base <= FRAMES && Counted(m, base) && Exclusive(m, base) && Ranged(m, base) && Slotted(m)
  }

  // ---------- counting ----------

  /** When only r changes its target, the sets of references change accordingly. */
  lemma RefsUpdate(m: Memory, m': Memory, r: Ref, f: nat)
    requires IsRef(r) && forall q | IsRef(q) && q != r :: Target(m', q) == Target(m, q)
    ensures Refs(m', f) == (if Target(m', r) == f then Refs(m, f) + {r} else Refs(m, f) - {r})
  {
  }

  /** MEM_MAP stays a count when the old target loses one and the new target gains one. */
  lemma CountedUpdate(m: Memory, m': Memory, base: nat, r: Ref)
    requires Counted(m, base) && IsRef(r) && base > 0
    requires forall q | IsRef(q) && q != r :: Target(m', q) == Target(m, q)
    requires forall f: nat | f < FRAMES :: m'.count[f] == m.count[f]
               + (if f >= base && Target(m', r) == f then 1 else 0)
               - (if f >= base && Target(m, r) == f then 1 else 0)
    ensures Counted(m', base)
  {
    forall f: nat | base <= f < FRAMES ensures m'.count[f] == |Refs(m', f)| {
      RefsUpdate(m, m', r, f);
      assert r in Refs(m, f) <==> Target(m, r) == f;
    }
  }

  /** The use of `Exclusive` at two references. */
  lemma Meet(m: Memory, base: nat, r: Ref, q: Ref)
    requires Exclusive(m, base) && IsRef(r) && IsRef(q) && r != q
    requires Target(m, r) == Target(m, q) >= base
    ensures r.Page? && q.Page? && SlotOf(r.d) != SlotOf(q.d) && !Writable(m, r) && !Writable(m, q)
  {
  }

  /** Page references to one frame lie in different slots, and a table or PCB is alone in its
      frame: no count passes 63, so the signed byte never overflows. */
  lemma CountBound(m: Memory, base: nat, f: nat)
    requires Exclusive(m, base) && base <= f
    ensures |Refs(m, f)| <= NR_TASKS - 1
  {
    var s := Refs(m, f);
    if r :| r in s && !r.Page? {
      forall q | q in s ensures q == r {
        if q != r { Meet(m, base, r, q); }
      }
      assert s == {r};
    } else {
      forall r, q | r in s && q in s && r != q ensures SlotOf(r.d) != SlotOf(q.d) {
        Meet(m, base, r, q);
      }
      Slots(s, UpTo(NR_TASKS - 1));
    }
  }

  ghost function UpTo(n: nat): (s: set<nat>)
    ensures |s| == n && forall k :: k in s <==> 1 <= k <= n
  {
    if n == 0 then {} else UpTo(n - 1) + {n}
  }

  /** Page references in pairwise different slots are no more than the slots. */
  lemma Slots(s: set<Ref>, ns: set<nat>)
    requires forall r | r in s :: r.Page? && SlotOf(r.d) in ns
    requires forall r, q | r in s && q in s && r != q :: SlotOf(r.d) != SlotOf(q.d)
    ensures |s| <= |ns|
  {
    if s != {} {
      var r :| r in s;
      Slots(s - {r}, ns - {SlotOf(r.d)});
    }
  }
}
