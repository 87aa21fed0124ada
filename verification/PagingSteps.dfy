/** Every elementary update of memory keeps the invariant and disturbs nothing but its own place. */
module PagingSteps {
  import opened Limits
  import opened Words
  import opened PagingModel
  import opened PagingInvariant

  /** The page at (d, i) is mapped as before, with the same contents; it may have lost PG_RWW. */
  ghost predicate SameAt(m: Memory, m': Memory, d: nat, i: nat)
    requires d < 1024 && i < 1024
  {
    var w, w' := Pte(m, d, i), Pte(m', d, i);
    w'.p == w.p && w'.frame == w.frame && (w'.rw ==> w.rw) && ViewAt(m', d, i) == ViewAt(m, d, i)
  }

  /** Only the directory entries lo <= d < hi, and what they map, may differ. */
  ghost predicate Except(m: Memory, m': Memory, base: nat, lo: nat, hi: nat) {
    && (forall d | 0 <= d < 1024 && !(lo <= d < hi) :: m'.ram[0][d] == m.ram[0][d])
    && (forall d, i | 16 <= d < 1024 && !(lo <= d < hi) && 0 <= i < 1024 :: SameAt(m, m', d, i))
    && (forall f | 1 <= f < base && f < FRAMES :: m'.ram[f] == m.ram[f])
  }

  ghost predicate HasTable(m: Memory, d: nat) {
    16 <= d < 1024 && m.ram[0][d].p
  }

  /** A page frame that is referred to is no page table. */
  lemma NoTable(m: Memory, base: nat, d: nat, r: Ref)
    requires Inv(m, base) && HasTable(m, d) && IsRef(r) && r != Table(d)
    ensures Target(m, r) != m.ram[0][d].frame
  {
    if Target(m, r) == m.ram[0][d].frame {
      Meet(m, base, r, Table(d));
    }
  }

  /** A store into a page table changes one entry. */
  lemma PutEntry(m: Memory, base: nat, d: nat, i: nat, w: Word)
    requires Inv(m, base) && HasTable(m, d) && i < 1024
    ensures var m' := Put(m, m.ram[0][d].frame, i, w);
      && m'.count == m.count && m'.tasks == m.tasks && m'.ram[0] == m.ram[0]
      && (forall f | 0 <= f < FRAMES && f != m.ram[0][d].frame :: m'.ram[f] == m.ram[f])
      && Pte(m', d, i) == w
      && (forall e, j | (e == 0 || 16 <= e < 1024) && 0 <= j < 1024 && (e != d || j != i) ::
            Pte(m', e, j) == Pte(m, e, j))
  {
    var t := m.ram[0][d].frame;
    var m' := Put(m, t, i, w);
    forall e, j | (e == 0 || 16 <= e < 1024) && 0 <= j < 1024 && (e != d || j != i)
      ensures Pte(m', e, j) == Pte(m, e, j)
    {
      if e >= 16 && e != d && m.ram[0][e].p {
        NoTable(m, base, d, Table(e));
      }
    }
  }

  /** Nothing refers to the frame that getFreePage finds; when it finds none, nothing happens. */
  lemma FreeFrame(m: Memory, base: nat)
    requires Inv(m, base)
    ensures var (m', f) := GetFreePage(m);
      if f == 0 then m' == m && forall g | base <= g < FRAMES :: Refs(m, g) != {}
      else base <= f < FRAMES && Refs(m, f) == {} && m.count[f] == 0
           && m' == m.(count := m.count[f := 1], ram := m.ram[f := Blank()])
  {
    var f := FirstFree(m.count, 0);
    forall g | base <= g < FRAMES && f == FRAMES ensures Refs(m, g) != {} {
      assert m.count[g] == |Refs(m, g)|;
    }
  }

  /** No page that is mapped lies in a frame without references. */
  lemma Unused(m: Memory, base: nat, f: nat, d: nat, i: nat)
    requires Inv(m, base) && base <= f < FRAMES && Refs(m, f) == {} && 16 <= d < 1024 && i < 1024
    ensures Pte(m, d, i).p ==> Pte(m, d, i).frame != f
    ensures m.ram[0][d].p ==> m.ram[0][d].frame != f
  {
    assert Page(d, i) in Refs(m, f) <==> Target(m, Page(d, i)) == f;
    assert Table(d) in Refs(m, f) <==> Target(m, Table(d)) == f;
  }

  /** A free frame becomes an empty page table. */
  lemma InstallTable(m: Memory, base: nat, d: nat)
    requires Inv(m, base) && 16 <= d < 1024 && !m.ram[0][d].p && m.tasks[SlotOf(d)] != 0
    requires GetFreePage(m).1 != 0
    ensures var (m1, t) := GetFreePage(m); var m' := Put(m1, 0, d, Entry(t));
      && Inv(m', base) && m'.tasks == m.tasks && Except(m, m', base, d, d + 1)
      && base <= t < FRAMES && m'.ram[0][d] == Entry(t)
      && (forall i | 0 <= i < 1024 :: Pte(m', d, i) == ZERO)
  {
    var (m1, t) := GetFreePage(m);
    var m' := Put(m1, 0, d, Entry(t));
    FreeFrame(m, base);
    forall e, i | 16 <= e < 1024 && 0 <= i < 1024 && e != d
      ensures Pte(m', e, i) == Pte(m, e, i) && SameAt(m, m', e, i)
    {
      Unused(m, base, t, e, i);
    }
    forall q | IsRef(q) && q != Table(d) ensures Target(m', q) == Target(m, q) {}
    CountedUpdate(m, m', base, Table(d));
    forall q | IsRef(q) ensures Apart(m', base, Table(d), q) {
      assert q in Refs(m, t) <==> Target(m, q) == t;
    }
    ExclusiveUpdate(m, m', base, Table(d));
  }

  /** What the changed reference r must satisfy at every other one, q, that meets it. */
  ghost predicate Apart(m: Memory, base: nat, r: Ref, q: Ref)
    requires IsRef(r) && IsRef(q)
  {
    q != r && Target(m, q) == Target(m, r) && Target(m, r) >= base ==>
      r.Page? && q.Page? && SlotOf(r.d) != SlotOf(q.d) && !Writable(m, r) && !Writable(m, q)
  }

  /** Only r changes its target, and it meets the others as it should. */
  lemma ExclusiveUpdate(m: Memory, m': Memory, base: nat, r: Ref)
    requires Exclusive(m, base) && IsRef(r)
    requires forall q | IsRef(q) && q != r :: Target(m', q) == Target(m, q) && (Writable(m', q) ==> Writable(m, q))
    requires forall q | IsRef(q) :: Apart(m', base, r, q)
    ensures Exclusive(m', base)
  {
    forall p, q | IsRef(p) && IsRef(q) && p != q && Target(m', p) == Target(m', q) && Target(m', p) >= base
      ensures p.Page? && q.Page? && SlotOf(p.d) != SlotOf(q.d) && !Writable(m', p) && !Writable(m', q)
    {
      if p == r {
        assert Apart(m', base, r, q);
      } else if q == r {
        assert Apart(m', base, r, p);
      } else {
        Meet(m, base, p, q);
      }
    }
  }

  // ---------- copyPageTables ----------

  /** A page entry loses PG_RWW. */
  lemma Protect(m: Memory, base: nat, d: nat, i: nat)
    requires Inv(m, base) && HasTable(m, d) && i < 1024
    ensures var m' := Put(m, m.ram[0][d].frame, i, Pte(m, d, i).(rw := false));
      && Inv(m', base) && m'.tasks == m.tasks && Except(m, m', base, 0, 0) && m'.count == m.count
  {
    var w := Pte(m, d, i).(rw := false);
    var m' := Put(m, m.ram[0][d].frame, i, w);
    PutEntry(m, base, d, i, w);
    forall e, j | 16 <= e < 1024 && 0 <= j < 1024 ensures SameAt(m, m', e, j) {
      if Pte(m, e, j).p { NoTable(m, base, d, Page(e, j)); }
    }
    forall q | IsRef(q) && q != Page(d, i) ensures Target(m', q) == Target(m, q) {}
    CountedUpdate(m, m', base, Page(d, i));
    forall q | IsRef(q) ensures Apart(m', base, Page(d, i), q) {
      if q != Page(d, i) && Target(m', q) == Target(m', Page(d, i)) >= base { Meet(m, base, Page(d, i), q); }
    }
    ExclusiveUpdate(m, m', base, Page(d, i));
  }

  /** A page that was not mapped is mapped, and counted when its frame is counted. */
  lemma MapPage(m: Memory, base: nat, d: nat, i: nat, w: Word)
    requires Inv(m, base) && HasTable(m, d) && i < 1024 && !Pte(m, d, i).p
    requires w.p && w.us && w.frame < FRAMES && !w.rw && (w.frame < base ==> w.frame < LOW_PAGES)
    requires forall q | IsRef(q) && Target(m, q) == w.frame && w.frame >= base ::
               q.Page? && SlotOf(q.d) != SlotOf(d) && !Writable(m, q)
    ensures var m1 := Put(m, m.ram[0][d].frame, i, w);
      var m' := if w.frame < base then m1 else SetCount(m1, w.frame, Inc8(CountOf(m1, w.frame)));
      && Inv(m', base) && m'.tasks == m.tasks && m'.ram[0] == m.ram[0] && Pte(m', d, i) == w
      && ViewAt(m', d, i) == (if w.frame < KERNEL_FRAMES then Low(w.frame) else Own(m.ram[w.frame]))
      && (forall e, j | 16 <= e < 1024 && 0 <= j < 1024 && (e != d || j != i) :: SameAt(m, m', e, j))
      && (forall f | 1 <= f < base && f < FRAMES :: m'.ram[f] == m.ram[f])
  {
    var m1 := Put(m, m.ram[0][d].frame, i, w);
    var m' := if w.frame < base then m1 else SetCount(m1, w.frame, Inc8(CountOf(m1, w.frame)));
    PutEntry(m, base, d, i, w);
    assert forall e, j | 16 <= e < 1024 && 0 <= j < 1024 :: Pte(m', e, j) == Pte(m1, e, j);
    forall e, j | 16 <= e < 1024 && 0 <= j < 1024 && (e != d || j != i) ensures SameAt(m, m', e, j) {
      if Pte(m, e, j).p { NoTable(m, base, d, Page(e, j)); }
    }
    assert w.frame != m.ram[0][d].frame by { assert Target(m, Table(d)) == m.ram[0][d].frame; }
    assert m'.ram[w.frame] == m.ram[w.frame];
    MapInv(m, m', base, d, i, w);
  }

  lemma MapInv(m: Memory, m': Memory, base: nat, d: nat, i: nat, w: Word)
    requires Inv(m, base) && HasTable(m, d) && i < 1024 && !Pte(m, d, i).p
    requires w.p && w.us && w.frame < FRAMES && !w.rw && (w.frame < base ==> w.frame < LOW_PAGES)
    requires forall q | IsRef(q) && Target(m, q) == w.frame && w.frame >= base ::
               q.Page? && SlotOf(q.d) != SlotOf(d) && !Writable(m, q)
    requires m'.ram[0] == m.ram[0] && m'.ram[1] == m.ram[1] && m'.tasks == m.tasks && Pte(m', d, i) == w
    requires forall e, j | 16 <= e < 1024 && 0 <= j < 1024 && (e != d || j != i) :: Pte(m', e, j) == Pte(m, e, j)
    requires m'.count == if w.frame < base then m.count else m.count[w.frame := Inc8(m.count[w.frame])]
    ensures Inv(m', base)
  {
    forall q | IsRef(q) && q != Page(d, i)
      ensures Target(m', q) == Target(m, q) && (Writable(m', q) ==> Writable(m, q))
    {}
    if w.frame >= base { CountBound(m, base, w.frame); }
    CountedUpdate(m, m', base, Page(d, i));
    forall q | IsRef(q) ensures Apart(m', base, Page(d, i), q) {}
    ExclusiveUpdate(m, m', base, Page(d, i));
  }

  /** What slot nr maps at its k-th table it maps where slot cur maps the same frame. */
  ghost predicate MirrorAt(m: Memory, base: nat, nr: nat, cur: nat, k: nat, i: nat)
    requires nr < NR_TASKS && cur < NR_TASKS && k < 16 && i < 1024
  {
    Pte(m, 16 * nr + k, i).p && Pte(m, 16 * nr + k, i).frame >= base ==>
      cur > 0 && Pte(m, 16 * cur + k, i).p && Pte(m, 16 * cur + k, i).frame == Pte(m, 16 * nr + k, i).frame
  }

  ghost predicate Mirror(m: Memory, base: nat, nr: nat, cur: nat)
    requires nr < NR_TASKS && cur < NR_TASKS
  {
    forall k, i | 0 <= k < 16 && 0 <= i < 1024 :: MirrorAt(m, base, nr, cur, k, i)
  }

  /** Slot cur can be copied from its k-th table at entry i. */
  ghost predicate Source(m: Memory, cur: nat, k: nat, i: nat)
    requires cur < NR_TASKS && k < 16
  {
    if cur == 0 then k == 0 && i < LOW_PAGES else HasTable(m, 16 * cur + k)
  }

  /** Sharing entry i of table k: the frame gains one reference and nobody may write it directly. */
  lemma ShareStep(m: Memory, base: nat, nr: nat, cur: nat, k: nat, i: nat)
    requires Inv(m, base) && 1 <= nr < NR_TASKS && cur < NR_TASKS && cur != nr && k < 16 && i < 1024
    requires HasTable(m, 16 * nr + k) && Source(m, cur, k, i) && Mirror(m, base, nr, cur)
    requires !Pte(m, 16 * nr + k, i).p
    ensures var d, e := 16 * nr + k, 16 * cur + k;
      var m' := ShareEntry(m, m.ram[0][d].frame, m.ram[0][e].frame, i);
      && Inv(m', base) && Mirror(m', base, nr, cur) && m'.tasks == m.tasks && m'.ram[0] == m.ram[0]
      && ViewAt(m', d, i) == ViewAt(m, e, i)
      && (forall e, j | 16 <= e < 1024 && 0 <= j < 1024 && (e != d || j != i) :: SameAt(m, m', e, j))
      && (forall f | 1 <= f < base && f < FRAMES :: m'.ram[f] == m.ram[f])
  {
    hide Inv, Mirror;
    var d, e := 16 * nr + k, 16 * cur + k;
    var w := Pte(m, e, i);
    var m' := ShareEntry(m, m.ram[0][d].frame, m.ram[0][e].frame, i);
    SourceEntry(m, base, cur, k, i);
    if w.p {
      KernelTest(w.(rw := false));
      if w.frame < base {
        MapPage(m, base, d, i, w.(rw := false));
      } else {
        ShareCounted(m, base, nr, cur, k, i);
      }
      MirrorKeeps(m, m', base, nr, cur, k, i);
    }
  }

  /** An entry that a fork may copy: in low memory, or counted and not of slot 0. */
  lemma SourceEntry(m: Memory, base: nat, cur: nat, k: nat, i: nat)
    requires Inv(m, base) && cur < NR_TASKS && k < 16 && i < 1024 && Source(m, cur, k, i)
    ensures var w := Pte(m, 16 * cur + k, i);
      && w == Item(m, m.ram[0][16 * cur + k].frame, i)
      && (w.p ==> w.us && w.frame < FRAMES && (if w.frame < base then w.frame < LOW_PAGES else cur > 0))
  {
  }

  /** The case of a frame above the kernel's: both entries become read-only. */
  lemma ShareCounted(m: Memory, base: nat, nr: nat, cur: nat, k: nat, i: nat)
    requires Inv(m, base) && 1 <= nr < NR_TASKS && 1 <= cur < NR_TASKS && cur != nr && k < 16 && i < 1024
    requires HasTable(m, 16 * nr + k) && HasTable(m, 16 * cur + k) && Mirror(m, base, nr, cur)
    requires !Pte(m, 16 * nr + k, i).p && Pte(m, 16 * cur + k, i).p && Pte(m, 16 * cur + k, i).frame >= base
    ensures var d, e := 16 * nr + k, 16 * cur + k;
      var m' := ShareEntry(m, m.ram[0][d].frame, m.ram[0][e].frame, i);
      && Inv(m', base) && m'.tasks == m.tasks && m'.ram[0] == m.ram[0]
      && Pte(m', d, i).p && Pte(m', d, i).frame == Pte(m, e, i).frame && ViewAt(m', d, i) == ViewAt(m, e, i)
      && (forall e, j | 16 <= e < 1024 && 0 <= j < 1024 && (e != d || j != i) :: SameAt(m, m', e, j))
      && (forall f | 1 <= f < base && f < FRAMES :: m'.ram[f] == m.ram[f])
  {
    var d, e := 16 * nr + k, 16 * cur + k;
    var ro := Pte(m, e, i).(rw := false);
    var m1 := Put(m, m.ram[0][e].frame, i, ro);
    SourceProtected(m, base, nr, cur, k, i);
    MapPage(m1, base, d, i, ro);
    ShareAsSteps(m, base, d, e, i);
    var m' := ShareEntry(m, m.ram[0][d].frame, m.ram[0][e].frame, i);
    assert SameAt(m, m1, e, i) && SameAt(m1, m', e, i);
    forall c, j | 16 <= c < 1024 && 0 <= j < 1024 && (c != d || j != i) ensures SameAt(m, m', c, j) {
      assert SameAt(m, m1, c, j) && SameAt(m1, m', c, j);
    }
  }

  /** The parent's entry first loses PG_RWW; then the frame may be mapped once more. */
  lemma SourceProtected(m: Memory, base: nat, nr: nat, cur: nat, k: nat, i: nat)
    requires Inv(m, base) && 1 <= nr < NR_TASKS && 1 <= cur < NR_TASKS && cur != nr && k < 16 && i < 1024
    requires HasTable(m, 16 * nr + k) && HasTable(m, 16 * cur + k) && Mirror(m, base, nr, cur)
    requires !Pte(m, 16 * nr + k, i).p && Pte(m, 16 * cur + k, i).p && Pte(m, 16 * cur + k, i).frame >= base
    ensures var d, e := 16 * nr + k, 16 * cur + k;
      var ro := Pte(m, e, i).(rw := false);
      var m1 := Put(m, m.ram[0][e].frame, i, ro);
      && Inv(m1, base) && m1.tasks == m.tasks && Except(m, m1, base, 0, 0) && Pte(m1, e, i) == ro && !Pte(m1, d, i).p
      && (forall q | IsRef(q) && Target(m1, q) == ro.frame ::
            q.Page? && SlotOf(q.d) != SlotOf(d) && !Writable(m1, q))
  {
    var d, e := 16 * nr + k, 16 * cur + k;
    var ro := Pte(m, e, i).(rw := false);
    var m1 := Put(m, m.ram[0][e].frame, i, ro);
    Protect(m, base, e, i);
    PutEntry(m, base, e, i, ro);
    MirrorKeeps(m, m1, base, nr, cur, k, i);
    forall q | IsRef(q) && Target(m1, q) == ro.frame
      ensures q.Page? && SlotOf(q.d) != SlotOf(d) && !Writable(m1, q)
    {
      SharedFrame(m1, base, nr, cur, k, i, q);
    }
  }

  /** The order of the two stores does not matter. */
  lemma ShareAsSteps(m: Memory, base: nat, d: nat, e: nat, i: nat)
    requires Inv(m, base) && HasTable(m, d) && HasTable(m, e) && d != e && i < 1024
    requires Pte(m, e, i).p && Pte(m, e, i).frame >= base
    ensures var ro := Pte(m, e, i).(rw := false);
      var m2 := Put(Put(m, m.ram[0][e].frame, i, ro), m.ram[0][d].frame, i, ro);
      ShareEntry(m, m.ram[0][d].frame, m.ram[0][e].frame, i) == SetCount(m2, ro.frame, Inc8(CountOf(m2, ro.frame)))
  {
    var ro := Pte(m, e, i).(rw := false);
    KernelTest(ro);
    NoTable(m, base, d, Table(e));
    Commute(m, m.ram[0][d].frame, m.ram[0][e].frame, i, ro);
  }

  lemma Commute(m: Memory, f: nat, g: nat, i: nat, w: Word)
    requires i < 1024 && f != g
    ensures Put(Put(m, f, i, w), g, i, w) == Put(Put(m, g, i, w), f, i, w)
  {
  }

  lemma MirrorKeeps(m: Memory, m': Memory, base: nat, nr: nat, cur: nat, k: nat, i: nat)
    requires 1 <= nr < NR_TASKS && cur < NR_TASKS && cur != nr && k < 16 && i < 1024 && Mirror(m, base, nr, cur)
    requires forall e, j | 16 <= e < 1024 && 0 <= j < 1024 && (e != 16 * nr + k || j != i) :: SameAt(m, m', e, j)
    requires MirrorAt(m', base, nr, cur, k, i)
    ensures Mirror(m', base, nr, cur)
  {
    forall l, j | 0 <= l < 16 && 0 <= j < 1024 ensures MirrorAt(m', base, nr, cur, l, j) {
      assert MirrorAt(m, base, nr, cur, l, j);
      assert l != k || j != i ==> SameAt(m, m', 16 * nr + l, j);
      assert cur > 0 ==> SameAt(m, m', 16 * cur + l, j);
    }
  }

  /** A frame that slot cur maps read-only at (k, i), and slot nr not yet there. */
  lemma SharedFrame(m: Memory, base: nat, nr: nat, cur: nat, k: nat, i: nat, q: Ref)
    requires Inv(m, base) && 1 <= nr < NR_TASKS && 1 <= cur < NR_TASKS && cur != nr && k < 16 && i < 1024
    requires HasTable(m, 16 * cur + k) && Mirror(m, base, nr, cur)
    requires Pte(m, 16 * cur + k, i).p && !Pte(m, 16 * cur + k, i).rw && !Pte(m, 16 * nr + k, i).p
    requires IsRef(q) && Target(m, q) == Pte(m, 16 * cur + k, i).frame >= base
    ensures q.Page? && SlotOf(q.d) != SlotOf(16 * nr + k) && !Writable(m, q)
  {
    hide Counted, Ranged, Slotted;
    var r := Page(16 * cur + k, i);
    if q != r {
      Meet(m, base, r, q);
      if SlotOf(q.d) == nr {
        var k' := q.d - 16 * nr;
        assert MirrorAt(m, base, nr, cur, k', q.i);
        Meet(m, base, r, Page(16 * cur + k', q.i));
      }
    }
  }

  // ---------- freePageTables ----------

  /** A page is unmapped and its frame loses one reference. */
  lemma DropStep(m: Memory, base: nat, d: nat, i: nat)
    requires Inv(m, base) && HasTable(m, d) && i < 1024
    ensures var m' := DropEntry(m, m.ram[0][d].frame, i);
      && Inv(m', base) && m'.tasks == m.tasks && m'.ram[0] == m.ram[0] && Pte(m', d, i) == ZERO
      && (forall e, j | 16 <= e < 1024 && 0 <= j < 1024 && (e != d || j != i) :: SameAt(m, m', e, j))
      && (forall f | 1 <= f < base && f < FRAMES :: m'.ram[f] == m.ram[f])
  {
    var w := Pte(m, d, i);
    var m1 := Put(m, m.ram[0][d].frame, i, ZERO);
    var m' := DropEntry(m, m.ram[0][d].frame, i);
    PutEntry(m, base, d, i, ZERO);
    assert m'.ram == m1.ram;
    assert forall e, j | 16 <= e < 1024 && 0 <= j < 1024 :: Pte(m', e, j) == Pte(m1, e, j);
    forall e, j | 16 <= e < 1024 && 0 <= j < 1024 && (e != d || j != i) ensures SameAt(m, m', e, j) {
      if Pte(m, e, j).p { NoTable(m, base, d, Page(e, j)); }
    }
    forall q | IsRef(q) && q != Page(d, i)
      ensures Target(m', q) == Target(m, q) && (Writable(m', q) ==> Writable(m, q))
    {}
    if w.p && w.frame >= base {
      assert Page(d, i) in Refs(m, w.frame);
      CountBound(m, base, w.frame);
    }
    CountedUpdate(m, m', base, Page(d, i));
    ExclusiveUpdate(m, m', base, Page(d, i));
  }

  /** An empty table is given back. */
  lemma DropTableStep(m: Memory, base: nat, d: nat)
    requires Inv(m, base) && HasTable(m, d) && forall i | 0 <= i < 1024 :: !Pte(m, d, i).p
    ensures var m' := Put(FreePage(m, m.ram[0][d].frame), 0, d, ZERO);
      && Inv(m', base) && m'.tasks == m.tasks && Except(m, m', base, d, d + 1) && !m'.ram[0][d].p
  {
    var t := m.ram[0][d].frame;
    var m' := Put(FreePage(m, t), 0, d, ZERO);
    forall e, i | 16 <= e < 1024 && 0 <= i < 1024 && e != d
      ensures Pte(m', e, i) == Pte(m, e, i) && SameAt(m, m', e, i)
    {
    }
    forall q | IsRef(q) && q != Table(d)
      ensures Target(m', q) == Target(m, q) && (Writable(m', q) ==> Writable(m, q))
    {}
    assert Table(d) in Refs(m, t);
    CountBound(m, base, t);
    CountedUpdate(m, m', base, Table(d));
    ExclusiveUpdate(m, m', base, Table(d));
  }

  // ---------- PCBs ----------

  lemma AllocPcb(m: Memory, base: nat, n: nat, pcb: Words.Page)
    requires Inv(m, base) && 1 <= n < NR_TASKS && m.tasks[n] == 0 && GetFreePage(m).1 != 0
    ensures var (m1, f) := GetFreePage(m);
      var m' := m1.(tasks := m1.tasks[n := f], ram := m1.ram[f := pcb]);
      Inv(m', base) && Except(m, m', base, 0, 0) && base <= f < FRAMES
  {
    var (m1, f) := GetFreePage(m);
    var m' := m1.(tasks := m1.tasks[n := f], ram := m1.ram[f := pcb]);
    FreeFrame(m, base);
    forall e, i | 16 <= e < 1024 && 0 <= i < 1024 ensures Pte(m', e, i) == Pte(m, e, i) && SameAt(m, m', e, i) {
      Unused(m, base, f, e, i);
    }
    forall q | IsRef(q) && q != Pcb(n) ensures Target(m', q) == Target(m, q) {}
    CountedUpdate(m, m', base, Pcb(n));
    forall q | IsRef(q) ensures Apart(m', base, Pcb(n), q) {
      assert q in Refs(m, f) <==> Target(m, q) == f;
    }
    ExclusiveUpdate(m, m', base, Pcb(n));
  }

  lemma FreePcb(m: Memory, base: nat, n: nat)
    requires Inv(m, base) && 1 <= n < NR_TASKS && m.tasks[n] != 0
    requires forall d | 16 <= d < 1024 && SlotOf(d) == n :: !m.ram[0][d].p
    ensures var m' := FreePage(m.(tasks := m.tasks[n := 0]), m.tasks[n]);
      Inv(m', base) && Except(m, m', base, 0, 0) && m'.tasks == m.tasks[n := 0]
  {
    var m' := FreePage(m.(tasks := m.tasks[n := 0]), m.tasks[n]);
    forall e, i | 16 <= e < 1024 && 0 <= i < 1024 ensures Pte(m', e, i) == Pte(m, e, i) && SameAt(m, m', e, i) {}
    forall q | IsRef(q) && q != Pcb(n) ensures Target(m', q) == Target(m, q) && (Writable(m', q) ==> Writable(m, q)) {}
    assert Pcb(n) in Refs(m, m.tasks[n]);
    CountBound(m, base, m.tasks[n]);
    CountedUpdate(m, m', base, Pcb(n));
    ExclusiveUpdate(m, m', base, Pcb(n));
  }

  // ---------- write faults and stores ----------

  /** The only reference to a frame of count 1 may write it. */
  lemma AllowStep(m: Memory, base: nat, d: nat, i: nat)
    requires Inv(m, base) && HasTable(m, d) && i < 1024 && Pte(m, d, i).p
    requires Pte(m, d, i).frame >= KERNEL_FRAMES && CountOf(m, Pte(m, d, i).frame) == 1
    ensures var m' := Put(m, m.ram[0][d].frame, i, Pte(m, d, i).(rw := true));
      && Inv(m', base) && m'.tasks == m.tasks && m'.ram[0] == m.ram[0] && Pte(m', d, i) == Pte(m, d, i).(rw := true)
      && ViewAt(m', d, i) == ViewAt(m, d, i)
      && (forall e, j | 16 <= e < 1024 && 0 <= j < 1024 && (e != d || j != i) :: SameAt(m, m', e, j))
      && (forall f | 1 <= f < base && f < FRAMES :: m'.ram[f] == m.ram[f])
  {
    var w := Pte(m, d, i);
    var m' := Put(m, m.ram[0][d].frame, i, w.(rw := true));
    PutEntry(m, base, d, i, w.(rw := true));
    NoTable(m, base, d, Page(d, i));
    forall e, j | 16 <= e < 1024 && 0 <= j < 1024 && (e != d || j != i) ensures SameAt(m, m', e, j) {
      if Pte(m, e, j).p { NoTable(m, base, d, Page(e, j)); }
    }
    forall q | IsRef(q) && q != Page(d, i)
      ensures Target(m', q) == Target(m, q) && (Writable(m', q) ==> Writable(m, q))
    {}
    CountedUpdate(m, m', base, Page(d, i));
    forall q | IsRef(q) ensures Apart(m', base, Page(d, i), q) {
      if q != Page(d, i) && Target(m, q) == w.frame { Pair(Refs(m, w.frame), Page(d, i), q); }
    }
    ExclusiveUpdate(m, m', base, Page(d, i));
  }

  lemma Pair(s: set<Ref>, r: Ref, q: Ref)
    requires r in s && q in s && r != q
    ensures |s| >= 2
  {
    assert |s - {r}| == |s| - 1 && q in s - {r};
  }

  /** A shared or kernel page is copied into a frame of its own. */
  lemma SplitStep(m: Memory, base: nat, d: nat, i: nat)
    requires Inv(m, base) && HasTable(m, d) && i < 1024 && Pte(m, d, i).p
    requires var f := Pte(m, d, i).frame; !(f >= KERNEL_FRAMES && CountOf(m, f) == 1)
    requires GetFreePage(m).1 != 0
    ensures var m' := UnWriteProtectPage(m, m.ram[0][d].frame, i).0;
      && Inv(m', base) && m'.tasks == m.tasks && m'.ram[0] == m.ram[0]
      && Pte(m', d, i) == Entry(GetFreePage(m).1) && ViewAt(m', d, i) == Own(m.ram[Pte(m, d, i).frame])
      && (forall e, j | 16 <= e < 1024 && 0 <= j < 1024 && (e != d || j != i) :: SameAt(m, m', e, j))
      && (forall f | 1 <= f < base && f < FRAMES :: m'.ram[f] == m.ram[f])
  {
    var t := m.ram[0][d].frame;
    var w := Pte(m, d, i);
    var (m1, f) := GetFreePage(m);
    var m' := UnWriteProtectPage(m, t, i).0;
    FreeFrame(m, base);
    Unused(m, base, f, d, i);
    NoTable(m, base, d, Page(d, i));
    var m2 := Put(m, t, i, Entry(f));
    PutEntry(m, base, d, i, Entry(f));
    assert m'.ram == m2.ram[f := m.ram[w.frame]];
    forall e, j | 16 <= e < 1024 && 0 <= j < 1024 ensures Pte(m', e, j) == Pte(m2, e, j) {
      Unused(m, base, f, e, j);
    }
    forall e, j | 16 <= e < 1024 && 0 <= j < 1024 && (e != d || j != i) ensures SameAt(m, m', e, j) {
      Unused(m, base, f, e, j);
      if Pte(m, e, j).p { NoTable(m, base, d, Page(e, j)); }
    }
    SplitInv(m, m', base, d, i, f);
  }

  lemma SplitInv(m: Memory, m': Memory, base: nat, d: nat, i: nat, f: nat)
    requires Inv(m, base) && HasTable(m, d) && i < 1024 && Pte(m, d, i).p
    requires base <= f < FRAMES && Refs(m, f) == {} && Pte(m', d, i) == Entry(f)
    requires m'.ram[0] == m.ram[0] && m'.tasks == m.tasks && m'.ram[1] == m.ram[1]
    requires forall e, j | 16 <= e < 1024 && 0 <= j < 1024 && (e != d || j != i) :: Pte(m', e, j) == Pte(m, e, j)
    requires var g := Pte(m, d, i).frame;
      m'.count == if g >= KERNEL_FRAMES then m.count[f := 1][g := Dec8(m.count[g])] else m.count[f := 1]
    ensures Inv(m', base)
  {
    var g := Pte(m, d, i).frame;
    forall q | IsRef(q) && q != Page(d, i)
      ensures Target(m', q) == Target(m, q) && (Writable(m', q) ==> Writable(m, q))
    {}
    assert Page(d, i) in Refs(m, g);
    if g >= base { CountBound(m, base, g); }
    CountedUpdate(m, m', base, Page(d, i));
    forall q | IsRef(q) ensures Apart(m', base, Page(d, i), q) {
      assert q in Refs(m, f) <==> Target(m, q) == f;
    }
    ExclusiveUpdate(m, m', base, Page(d, i));
  }

  /** A store into a frame that is neither the page directory nor a page table. */
  lemma PutData(m: Memory, base: nat, f: nat, off: nat, w: Word)
    requires Inv(m, base) && 2 <= f < FRAMES && off < 1024
    requires forall d | 16 <= d < 1024 :: Target(m, Table(d)) != f
    ensures var m' := Put(m, f, off, w);
      && Inv(m', base) && m'.tasks == m.tasks && m'.ram[0] == m.ram[0]
      && (forall e, j | 16 <= e < 1024 && 0 <= j < 1024 :: Pte(m', e, j) == Pte(m, e, j))
      && (forall e, j | 16 <= e < 1024 && 0 <= j < 1024 && Target(m, Page(e, j)) != f :: SameAt(m, m', e, j))
  {
    var m' := Put(m, f, off, w);
    forall e, j | 16 <= e < 1024 && 0 <= j < 1024 ensures Pte(m', e, j) == Pte(m, e, j) {
      assert Target(m, Table(e)) != f;
    }
    forall q | IsRef(q) ensures Target(m', q) == Target(m, q) && (Writable(m', q) ==> Writable(m, q)) {}
    CountedUpdate(m, m', base, Table(16));
    forall q | IsRef(q) ensures Apart(m', base, Table(16), q) {
      if q != Table(16) && Target(m, q) == Target(m, Table(16)) >= base { Meet(m, base, Table(16), q); }
    }
    ExclusiveUpdate(m, m', base, Table(16));
  }
}
