/** Fork as a whole: the child sees what the parent saw, or nothing has happened. */
module PagingFork {
  import opened Limits
  import opened Words
  import opened PagingModel
  import opened PagingInvariant
  import opened PagingSteps
  import Descriptors

  /** Frames that getFreePage could hand out. */
  ghost function Free(m: Memory): (s: set<nat>)
    ensures forall f: nat :: f in s <==> f < FRAMES && m.count[f] == 0
  {
    set f: nat | f < FRAMES && m.count[f] == 0
  }

  lemma FreeIsSearched(m: Memory, base: nat)
    requires Inv(m, base)
    ensures GetFreePage(m).1 == 0 <==> Free(m) == {}
  {
    FreeFrame(m, base);
    var f := FirstFree(m.count, 0);
    if f < FRAMES { assert f in Free(m); }
  }

  /** What a copy of page (d, i) shows: slot 0 gives its first LOW_PAGES pages only. */
  function Copied(m: Memory, cur: nat, k: nat, i: nat): View
    requires cur < NR_TASKS && k < 16 && i < 1024
  {
    if cur == 0 && i >= LOW_PAGES then Absent else ViewAt(m, 16 * cur + k, i)
  }

  /** Slot 0 and the slots from 16 on look the same after a change elsewhere. */
  lemma CopiedKept(m: Memory, m': Memory, base: nat, lo: nat, hi: nat, cur: nat, k: nat, i: nat)
    requires Inv(m, base) && Except(m, m', base, lo, hi) && 16 <= lo
    requires cur < NR_TASKS && k < 16 && i < 1024 && (cur == 0 ==> k == 0)
    requires !(lo <= 16 * cur + k < hi)
    ensures Copied(m', cur, k, i) == Copied(m, cur, k, i)
  {
    if cur > 0 { assert SameAt(m, m', 16 * cur + k, i); }
  }

  /** Exactly n frames were taken, the lowest that were free. */
  ghost predicate Taken(m: Memory, m': Memory, n: nat) {
    && Free(m') <= Free(m) && |Free(m)| == |Free(m')| + n
    && forall t, u | t in Free(m) && t !in Free(m') && u in Free(m') :: t < u
  }

  lemma OneTaken(m: Memory, m': Memory, t: nat)
    requires t in Free(m) && t == GetFreePage(m).1 && Free(m') == Free(m) - {t}
    ensures Taken(m, m', 1)
  {
    assert t == FirstFree(m.count, 0);
  }

  lemma TakenJoin(m: Memory, m1: Memory, m2: Memory, n1: nat, n2: nat)
    requires Taken(m, m1, n1) && Taken(m1, m2, n2)
    ensures Taken(m, m2, n1 + n2)
  {
  }

  // ---------- one table ----------

  ghost predicate Unmapped(m: Memory, d: nat, i: nat)
    requires d < 1024
  {
    forall j | i <= j < 1024 :: !Pte(m, d, j).p
  }

  lemma {:induction false} ShareTable(m: Memory, base: nat, nr: nat, cur: nat, k: nat, i: nat, cnt: nat)
    requires Inv(m, base) && 1 <= nr < NR_TASKS && cur < NR_TASKS && cur != nr && k < 16 && i <= cnt <= 1024
    requires if cur == 0 then k == 0 && cnt <= LOW_PAGES else HasTable(m, 16 * cur + k)
    requires HasTable(m, 16 * nr + k) && Mirror(m, base, nr, cur)
    requires Unmapped(m, 16 * nr + k, i)
    ensures var d, e := 16 * nr + k, 16 * cur + k;
      var m' := ShareEntries(m, m.ram[0][d].frame, m.ram[0][e].frame, i, cnt);
      && Inv(m', base) && Mirror(m', base, nr, cur) && m'.tasks == m.tasks && m'.ram[0] == m.ram[0]
      && Except(m, m', base, d, d + 1) && Free(m') == Free(m)
      && (forall j | 0 <= j < i :: ViewAt(m', d, j) == ViewAt(m, d, j))
      && (forall j | i <= j < cnt :: ViewAt(m', d, j) == ViewAt(m, e, j))
      && Unmapped(m', d, cnt)
    decreases cnt - i
  {
    hide Counted, Exclusive, Ranged, Mirror, ShareEntry;
    var d, e := 16 * nr + k, 16 * cur + k;
    if i < cnt {
      var m1 := ShareEntry(m, m.ram[0][d].frame, m.ram[0][e].frame, i);
      ShareStep(m, base, nr, cur, k, i);
      ShareKeepsFree(m, base, d, e, i);
      forall j | i + 1 <= j < 1024 ensures !Pte(m1, d, j).p { assert SameAt(m, m1, d, j); }
      ShareTable(m1, base, nr, cur, k, i + 1, cnt);
      var m' := ShareEntries(m1, m.ram[0][d].frame, m.ram[0][e].frame, i + 1, cnt);
      forall c, j | 16 <= c < 1024 && c != d && 0 <= j < 1024 ensures SameAt(m, m', c, j) {
        assert SameAt(m, m1, c, j) && SameAt(m1, m', c, j);
      }
      forall j | 0 <= j < i ensures ViewAt(m', d, j) == ViewAt(m, d, j) { assert SameAt(m, m1, d, j); }
      forall j | i <= j < cnt ensures ViewAt(m', d, j) == ViewAt(m, e, j) {
        assert cur > 0 ==> SameAt(m, m1, e, j);
      }
    }
  }

  /** Sharing takes no free frame: the frame it counts already had a reference. */
  lemma ShareKeepsFree(m: Memory, base: nat, d: nat, e: nat, i: nat)
    requires Inv(m, base) && HasTable(m, d) && i < 1024 && (if e == 0 then i < LOW_PAGES else HasTable(m, e))
    ensures Free(ShareEntry(m, m.ram[0][d].frame, m.ram[0][e].frame, i)) == Free(m)
  {
    var w := Pte(m, e, i);
    if w.p {
      KernelTest(w.(rw := false));
      if e != 0 && w.frame >= base {
        assert Page(e, i) in Refs(m, w.frame);
        CountBound(m, base, w.frame);
      }
    }
  }

  // ---------- all tables ----------

  /** How many of the tables from, ..., from + n - 1 there are to copy. */
  function Need(m: Memory, from: nat, n: nat): nat
    requires from + n <= 1024
    decreases n
  {
    if n == 0 then 0 else Bit(m.ram[0][from].p) + Need(m, from + 1, n - 1)
  }

  lemma {:induction false} NeedKept(m: Memory, m': Memory, from: nat, n: nat)
    requires from + n <= 1024 && forall d | from <= d < from + n :: m'.ram[0][d] == m.ram[0][d]
    ensures Need(m', from, n) == Need(m, from, n)
    decreases n
  {
    if n > 0 { NeedKept(m, m', from + 1, n - 1); }
  }

  /** A new empty table in slot nr. */
  lemma EmptyTable(m: Memory, base: nat, nr: nat, cur: nat, k: nat)
    requires Inv(m, base) && 1 <= nr < NR_TASKS && cur < NR_TASKS && cur != nr && k < 16
    requires Mirror(m, base, nr, cur) && m.tasks[nr] != 0 && !m.ram[0][16 * nr + k].p && Free(m) != {}
    ensures var d := 16 * nr + k;
      var (m1, t) := GetFreePage(m); var m' := Put(m1, 0, d, Entry(t));
      && t != 0 && Inv(m', base) && Mirror(m', base, nr, cur) && m'.tasks == m.tasks && Except(m, m', base, d, d + 1)
      && m'.ram[0][d] == Entry(t) && Unmapped(m', d, 0) && t in Free(m) && Free(m') == Free(m) - {t}
  {
    var d := 16 * nr + k;
    var (m1, t) := GetFreePage(m);
    var m' := Put(m1, 0, d, Entry(t));
    FreeIsSearched(m, base);
    FreeFrame(m, base);
    InstallTable(m, base, d);
    assert Free(m') == Free(m) - {t};
    forall l, j | 0 <= l < 16 && 0 <= j < 1024 ensures MirrorAt(m', base, nr, cur, l, j) {
      assert MirrorAt(m, base, nr, cur, l, j);
      assert l != k ==> SameAt(m, m', 16 * nr + l, j);
      assert cur > 0 ==> SameAt(m, m', 16 * cur + l, j);
    }
  }

  /** The tables lo <= c < hi of slot nr show copies of those of slot cur. */
  ghost predicate Copies(m: Memory, m': Memory, nr: nat, cur: nat, lo: nat, hi: nat)
    requires nr < NR_TASKS && cur < NR_TASKS && hi <= 16
  {
    forall c, j | lo <= c < hi && 0 <= j < 1024 :: ViewAt(m', 16 * nr + c, j) == Copied(m, cur, c, j)
  }

  lemma CopiesJoin(m: Memory, m1: Memory, m2: Memory, base: nat, nr: nat, cur: nat, lo: nat, mid: nat, hi: nat)
    requires Inv(m, base) && 1 <= nr < NR_TASKS && cur < NR_TASKS && cur != nr && lo <= mid <= hi <= 16
    requires cur == 0 ==> hi <= 1
    requires Except(m, m1, base, 16 * nr + lo, 16 * nr + mid) && Except(m1, m2, base, 16 * nr + mid, 16 * nr + hi)
    requires Inv(m1, base)
    ensures Except(m, m2, base, 16 * nr + lo, 16 * nr + hi)
    ensures Copies(m, m1, nr, cur, lo, mid) && Copies(m1, m2, nr, cur, mid, hi) ==> Copies(m, m2, nr, cur, lo, hi)
  {
    forall d, j | 16 <= d < 1024 && !(16 * nr + lo <= d < 16 * nr + hi) && 0 <= j < 1024 ensures SameAt(m, m2, d, j) {
      assert SameAt(m, m1, d, j) && SameAt(m1, m2, d, j);
    }
    if Copies(m, m1, nr, cur, lo, mid) && Copies(m1, m2, nr, cur, mid, hi) {
      forall c, j | lo <= c < hi && 0 <= j < 1024 ensures ViewAt(m2, 16 * nr + c, j) == Copied(m, cur, c, j) {
        CopiedKept(m, m1, base, 16 * nr + lo, 16 * nr + mid, cur, c, j);
        if c < mid {
          assert ViewAt(m1, 16 * nr + c, j) == Copied(m, cur, c, j);
          assert SameAt(m1, m2, 16 * nr + c, j);
        } else {
          assert ViewAt(m2, 16 * nr + c, j) == Copied(m1, cur, c, j);
        }
      }
    }
  }

  /** Making the table and sharing all its entries. */
  function FirstTable(m: Memory, d: nat, e: nat, cnt: nat): Memory
    requires d < 1024 && e < 1024 && cnt <= 1024
  {
    var (m1, t) := GetFreePage(m);
    ShareEntries(Put(m1, 0, d, Entry(t)), t, m.ram[0][e].frame, 0, cnt)
  }

  lemma FirstTableOk(m: Memory, base: nat, nr: nat, cur: nat, k: nat)
    requires Inv(m, base) && 1 <= nr < NR_TASKS && cur < NR_TASKS && cur != nr && k < 16 && (cur == 0 ==> k == 0)
    requires Mirror(m, base, nr, cur) && m.tasks[nr] != 0 && Free(m) != {}
    requires !m.ram[0][16 * nr + k].p && m.ram[0][16 * cur + k].p
    ensures var m' := FirstTable(m, 16 * nr + k, 16 * cur + k, Entries(cur));
      && Inv(m', base) && Mirror(m', base, nr, cur) && m'.tasks == m.tasks
      && Except(m, m', base, 16 * nr + k, 16 * nr + k + 1) && Copies(m, m', nr, cur, k, k + 1)
      && Taken(m, m', 1)
  {
    hide Inv, Mirror, Except, ShareEntries;
    var d, e, cnt := 16 * nr + k, 16 * cur + k, Entries(cur);
    var (m1, t) := GetFreePage(m);
    var m2 := Put(m1, 0, d, Entry(t));
    EmptyTable(m, base, nr, cur, k);
    OneTaken(m, m2, t);
    ShareTable(m2, base, nr, cur, k, 0, cnt);
    var m' := ShareEntries(m2, t, m.ram[0][e].frame, 0, cnt);
    assert forall j | 0 <= j < cnt :: ViewAt(m', d, j) == ViewAt(m2, e, j);
    SharedCopies(m, m2, m', base, nr, cur, k);
  }

  /** The entries of the one table shared from m2 on are copies of what they were in m. */
  lemma SharedCopies(m: Memory, m2: Memory, m': Memory, base: nat, nr: nat, cur: nat, k: nat)
    requires Inv(m, base) && 1 <= nr < NR_TASKS && cur < NR_TASKS && cur != nr && k < 16 && (cur == 0 ==> k == 0)
    requires var d := 16 * nr + k; Except(m, m2, base, d, d + 1) && Except(m2, m', base, d, d + 1)
    requires var d, e, cnt := 16 * nr + k, 16 * cur + k, Entries(cur);
      (forall j | 0 <= j < cnt :: ViewAt(m', d, j) == ViewAt(m2, e, j)) && Unmapped(m', d, cnt)
    ensures Except(m, m', base, 16 * nr + k, 16 * nr + k + 1) && Copies(m, m', nr, cur, k, k + 1)
  {
    var d := 16 * nr + k;
    forall c, j | 16 <= c < 1024 && c != d && 0 <= j < 1024 ensures SameAt(m, m', c, j) {
      assert SameAt(m, m2, c, j) && SameAt(m2, m', c, j);
    }
    forall j | 0 <= j < 1024 ensures ViewAt(m', d, j) == Copied(m, cur, k, j) {
      CopiedKept(m, m2, base, d, d + 1, cur, k, j);
    }
  }

  /** What copyPageTables leaves: memory m' and whether it succeeded. */
  ghost predicate CopyPost(m: Memory, m': Memory, ok: bool, base: nat, nr: nat, cur: nat, k: nat, n: nat)
    requires nr < NR_TASKS && cur < NR_TASKS && k + n <= 16
  {
    && Inv(m', base) && m'.tasks == m.tasks && Except(m, m', base, 16 * nr + k, 16 * nr + k + n)
    && (ok <==> |Free(m)| >= Need(m, 16 * cur + k, n))
    && (ok ==> Copies(m, m', nr, cur, k, k + n) && Taken(m, m', Need(m, 16 * cur + k, n)))
  }

  /** Slot nr, from its k-th table on, is ready to receive n tables of slot cur. */
  ghost predicate CopyPre(m: Memory, base: nat, nr: nat, cur: nat, k: nat, n: nat) {
    && Inv(m, base) && 1 <= nr < NR_TASKS && cur < NR_TASKS && cur != nr && k + n <= 16
    && m.tasks[nr] != 0 && Mirror(m, base, nr, cur) && (cur == 0 ==> k + n <= 1)
    && forall d | 16 * nr + k <= d < 16 * nr + k + n :: !m.ram[0][d].p
  }

  /** A first table, copied or absent on both sides, and the rest. */
  lemma CopyStep(m: Memory, m1: Memory, m': Memory, ok: bool, base: nat, nr: nat, cur: nat, k: nat, n: nat)
    requires n > 0 && CopyPre(m, base, nr, cur, k, n) && CopyPost(m1, m', ok, base, nr, cur, k + 1, n - 1)
    requires Inv(m1, base) && m1.tasks == m.tasks && Except(m, m1, base, 16 * nr + k, 16 * nr + k + 1)
    requires Copies(m, m1, nr, cur, k, k + 1) && Taken(m, m1, Bit(m.ram[0][16 * cur + k].p))
    ensures CopyPost(m, m', ok, base, nr, cur, k, n)
  {
    NeedKept(m, m1, 16 * cur + k + 1, n - 1);
    CopiesJoin(m, m1, m', base, nr, cur, k, k + 1, k + n);
    if ok { TakenJoin(m, m1, m', Bit(m.ram[0][16 * cur + k].p), Need(m1, 16 * cur + k + 1, n - 1)); }
  }

  /** The parent has a table here but there is no frame for the child's. */
  ghost predicate Stuck(m: Memory, cur: nat, k: nat)
    requires cur < NR_TASKS && k < 16
  {
    m.ram[0][16 * cur + k].p && Free(m) == {}
  }

  function AfterFirst(m: Memory, nr: nat, cur: nat, k: nat): Memory
    requires nr < NR_TASKS && cur < NR_TASKS && k < 16
  {
    if m.ram[0][16 * cur + k].p then FirstTable(m, 16 * nr + k, 16 * cur + k, Entries(cur)) else m
  }

  /** One round of the outer loop. */
  lemma CopyRound(m: Memory, base: nat, nr: nat, cur: nat, k: nat, n: nat)
    requires n > 0 && CopyPre(m, base, nr, cur, k, n)
    ensures var m1 := AfterFirst(m, nr, cur, k);
      CopyTables(m, 16 * nr + k, 16 * cur + k, n, Entries(cur)) ==
        if Stuck(m, cur, k) then (m, false)
        else CopyTables(m1, 16 * nr + (k + 1), 16 * cur + (k + 1), n - 1, Entries(cur))
  {
    FreeIsSearched(m, base);
    FreeFrame(m, base);
  }

  lemma CopyEnd(m: Memory, base: nat, nr: nat, cur: nat, k: nat, n: nat)
    requires CopyPre(m, base, nr, cur, k, n)
    ensures n == 0 ==> CopyPost(m, m, true, base, nr, cur, k, n)
    ensures n > 0 && Stuck(m, cur, k) ==> CopyPost(m, m, false, base, nr, cur, k, n)
  {
  }

  /** One table done, whether there was one to copy or not. */
  lemma FirstOk(m: Memory, base: nat, nr: nat, cur: nat, k: nat, n: nat)
    requires n > 0 && CopyPre(m, base, nr, cur, k, n) && !Stuck(m, cur, k)
    ensures var m' := AfterFirst(m, nr, cur, k);
      && CopyPre(m', base, nr, cur, k + 1, n - 1) && m'.tasks == m.tasks
      && Except(m, m', base, 16 * nr + k, 16 * nr + k + 1) && Copies(m, m', nr, cur, k, k + 1)
      && Taken(m, m', Bit(m.ram[0][16 * cur + k].p))
  {
    hide Inv, Except, Copies, Mirror, FirstTable;
    var m' := AfterFirst(m, nr, cur, k);
    if m.ram[0][16 * cur + k].p {
      FirstTableOk(m, base, nr, cur, k);
    } else {
      AbsentTable(m, base, nr, cur, k);
    }
    Untouched(m, m', base, nr, k, n);
  }

  lemma Untouched(m: Memory, m': Memory, base: nat, nr: nat, k: nat, n: nat)
    requires n > 0 && nr < NR_TASKS && k + n <= 16 && Except(m, m', base, 16 * nr + k, 16 * nr + k + 1)
    requires forall d | 16 * nr + k <= d < 16 * nr + k + n :: !m.ram[0][d].p
    ensures forall d | 16 * nr + (k + 1) <= d < 16 * nr + (k + 1) + (n - 1) :: !m'.ram[0][d].p
  {
  }

  /** copyPageTables succeeds exactly when there are frames for all the tables, and then every
      page of the child shows what the parent's shows. */
  lemma {:induction false} CopyTablesOk(m: Memory, base: nat, nr: nat, cur: nat, k: nat, n: nat)
    requires CopyPre(m, base, nr, cur, k, n)
    ensures var r := CopyTables(m, 16 * nr + k, 16 * cur + k, n, Entries(cur));
      CopyPost(m, r.0, r.1, base, nr, cur, k, n)
    decreases n
  {
    hide Inv, Copies, Except, Taken, Mirror, CopyPost, AfterFirst, Stuck;
    CopyEnd(m, base, nr, cur, k, n);
    if n > 0 {
      CopyRound(m, base, nr, cur, k, n);
      if !Stuck(m, cur, k) {
        var m1 := AfterFirst(m, nr, cur, k);
        FirstOk(m, base, nr, cur, k, n);
        CopyTablesOk(m1, base, nr, cur, k + 1, n - 1);
        var r := CopyTables(m1, 16 * nr + (k + 1), 16 * cur + (k + 1), n - 1, Entries(cur));
        CopyStep(m, m1, r.0, r.1, base, nr, cur, k, n);
      }
    }
  }

  lemma AbsentTable(m: Memory, base: nat, nr: nat, cur: nat, k: nat)
    requires nr < NR_TASKS && cur < NR_TASKS && k < 16
    requires !m.ram[0][16 * nr + k].p && !m.ram[0][16 * cur + k].p
    ensures Copies(m, m, nr, cur, k, k + 1) && Except(m, m, base, 16 * nr + k, 16 * nr + k + 1)
  {
  }

  // ---------- undoing ----------

  lemma {:induction false} DropEntriesOk(m: Memory, base: nat, d: nat, i: nat)
    requires Inv(m, base) && HasTable(m, d) && i <= 1024 && forall j | 0 <= j < i :: !Pte(m, d, j).p
    ensures var m' := DropEntries(m, m.ram[0][d].frame, i);
      && Inv(m', base) && m'.tasks == m.tasks && m'.ram[0] == m.ram[0] && Except(m, m', base, d, d + 1)
      && Unmapped(m', d, 0)
    decreases 1024 - i
  {
    if i < 1024 {
      var m1 := DropEntry(m, m.ram[0][d].frame, i);
      DropStep(m, base, d, i);
      forall j | 0 <= j < i ensures !Pte(m1, d, j).p { assert SameAt(m, m1, d, j); }
      DropEntriesOk(m1, base, d, i + 1);
      var m' := DropEntries(m1, m.ram[0][d].frame, i + 1);
      forall c, j | 16 <= c < 1024 && c != d && 0 <= j < 1024 ensures SameAt(m, m', c, j) {
        assert SameAt(m, m1, c, j) && SameAt(m1, m', c, j);
      }
    }
  }

  lemma DropTableOk(m: Memory, base: nat, d: nat)
    requires Inv(m, base) && 16 <= d < 1024
    ensures var m' := DropTable(m, d);
      Inv(m', base) && m'.tasks == m.tasks && Except(m, m', base, d, d + 1) && !m'.ram[0][d].p
  {
    if m.ram[0][d].p {
      var m1 := DropEntries(m, m.ram[0][d].frame, 0);
      DropEntriesOk(m, base, d, 0);
      DropTableStep(m1, base, d);
      var m' := DropTable(m, d);
      forall c, j | 16 <= c < 1024 && c != d && 0 <= j < 1024 ensures SameAt(m, m', c, j) {
        assert SameAt(m, m1, c, j) && SameAt(m1, m', c, j);
      }
    }
  }

  /** freePageTables leaves no table in its range and disturbs nothing else. */
  lemma {:induction false} DropTablesOk(m: Memory, base: nat, d: nat, n: nat)
    requires Inv(m, base) && 16 <= d && d + n <= 1024
    ensures var m' := DropTables(m, d, n);
      && Inv(m', base) && m'.tasks == m.tasks && Except(m, m', base, d, d + n)
      && forall e | d <= e < d + n :: !m'.ram[0][e].p
    decreases n
  {
    if n > 0 {
      var m1 := DropTable(m, d);
      DropTableOk(m, base, d);
      DropTablesOk(m1, base, d + 1, n - 1);
      var m' := DropTables(m1, d + 1, n - 1);
      forall c, j | 16 <= c < 1024 && !(d <= c < d + n) && 0 <= j < 1024 ensures SameAt(m, m', c, j) {
        assert SameAt(m, m1, c, j) && SameAt(m1, m', c, j);
      }
    }
  }

  /** copyPageTables is given data_limit + 1 and freePageTables data_limit: for a limit of whole
      pages both round up to the same number of tables, at most the sixteen of a slot, which cover all
      pages under the limit and no more than they must. */
  lemma SameDirs(pages: nat)
    requires 1 <= pages <= 0x4000
    ensures Dirs(4096 * pages) == Dirs(4096 * pages - 1) <= 16
    ensures pages <= 1024 ==> Dirs(4096 * pages) == 1
    ensures 1024 * (Dirs(4096 * pages) - 1) < pages <= 1024 * Dirs(4096 * pages)
  {
    var n := Dirs(4096 * pages);
    assert 0x400000 * n <= 4096 * pages + 0x3fffff < 0x400000 * n + 0x400000;
    assert 1024 * n <= pages + 1023;
  }

  /** Memory in which every reference is what it was has the counts it had. */
  lemma SameCounts(m: Memory, m': Memory, base: nat)
    requires Inv(m, base) && Inv(m', base) && forall r | IsRef(r) :: Target(m', r) == Target(m, r)
    ensures m'.count == m.count
  {
    forall f: nat | f < FRAMES ensures m'.count[f] == m.count[f] {
      if f >= base { assert Refs(m', f) == Refs(m, f); }
    }
  }

  /** When copying fails, the tables it made are gone again. */
  lemma UndoneOk(m: Memory, m1: Memory, base: nat, nr: nat, n: nat)
    requires Inv(m, base) && Inv(m1, base) && 1 <= nr < NR_TASKS && n <= 16
    requires forall d | 16 * nr <= d < 16 * nr + n :: !m.ram[0][d].p
    requires Except(m, m1, base, 16 * nr, 16 * nr + n) && m1.tasks == m.tasks
    ensures var m' := DropTables(m1, 16 * nr, n);
      && Inv(m', base) && m'.tasks == m.tasks
      && (forall d | 16 * nr <= d < 16 * nr + n :: !m'.ram[0][d].p)
      && (forall d | 0 <= d < 1024 && !(16 * nr <= d < 16 * nr + n) :: m'.ram[0][d] == m.ram[0][d])
      && (forall d, i | 16 <= d < 1024 && 0 <= i < 1024 :: SameAt(m, m', d, i))
      && (forall f | 1 <= f < base && f < FRAMES :: m'.ram[f] == m.ram[f])
      && m'.count == m.count
  {
    var m' := DropTables(m1, 16 * nr, n);
    DropTablesOk(m1, base, 16 * nr, n);
    forall d, i | 16 <= d < 1024 && 0 <= i < 1024 ensures SameAt(m, m', d, i) {
      if !(16 * nr <= d < 16 * nr + n) { assert SameAt(m, m1, d, i) && SameAt(m1, m', d, i); }
    }
    forall r | IsRef(r) ensures Target(m', r) == Target(m, r) {
      if r.Page? { assert SameAt(m, m', r.d, r.i); }
    }
    SameCounts(m, m', base);
  }

  // ---------- PCBs ----------

  /** Every live slot from 1 on still has its PCB, with the same contents. */
  ghost predicate PcbsKept(m: Memory, m': Memory) {
    forall n | 1 <= n < NR_TASKS && m.tasks[n] != 0 :: PcbKept(m, m', n)
  }

  ghost predicate PcbKept(m: Memory, m': Memory, n: nat)
    requires n < NR_TASKS
  {
    m'.tasks[n] == m.tasks[n] && (m.tasks[n] < FRAMES ==> m'.ram[m.tasks[n]] == m.ram[m.tasks[n]])
  }

  lemma {:induction false} ShareElsewhere(m: Memory, to: nat, from: nat, i: nat, cnt: nat, g: nat)
    requires i <= cnt <= 1024 && g < FRAMES && g != to && g != from
    ensures ShareEntries(m, to, from, i, cnt).ram[g] == m.ram[g]
    decreases cnt - i
  {
    if i < cnt { ShareElsewhere(ShareEntry(m, to, from, i), to, from, i + 1, cnt, g); }
  }

  lemma {:induction false} DropElsewhere(m: Memory, t: nat, i: nat, g: nat)
    requires i <= 1024 && g < FRAMES && g != t
    ensures DropEntries(m, t, i).ram[g] == m.ram[g]
    decreases 1024 - i
  {
    if i < 1024 { DropElsewhere(DropEntry(m, t, i), t, i + 1, g); }
  }

  /** A PCB is not where the next frame is taken, nor is it a page table. */
  lemma PcbFrame(m: Memory, base: nat, n: nat)
    requires Inv(m, base) && 1 <= n < NR_TASKS && m.tasks[n] != 0
    ensures base <= m.tasks[n] < FRAMES && m.tasks[n] != GetFreePage(m).1 && m.tasks[n] > 0
    ensures forall d | 16 <= d < 1024 && m.ram[0][d].p :: m.ram[0][d].frame != m.tasks[n]
    ensures forall d, i | 16 <= d < 1024 && 0 <= i < 1024 && Pte(m, d, i).p :: Pte(m, d, i).frame != m.tasks[n]
  {
    FreeFrame(m, base);
    assert Pcb(n) in Refs(m, m.tasks[n]);
    forall r | IsRef(r) && r != Pcb(n) ensures Target(m, r) != m.tasks[n] {
      if Target(m, r) == m.tasks[n] { Meet(m, base, r, Pcb(n)); }
    }
    forall d | 16 <= d < 1024 && m.ram[0][d].p ensures m.ram[0][d].frame != m.tasks[n] {
      assert Target(m, Table(d)) != m.tasks[n];
    }
    forall d, i | 16 <= d < 1024 && 0 <= i < 1024 && Pte(m, d, i).p ensures Pte(m, d, i).frame != m.tasks[n] {
      assert Target(m, Page(d, i)) != m.tasks[n];
    }
  }

  /** A table that a fork copies lies in low memory or is one of the slot's own. */
  lemma SlotTable(m: Memory, base: nat, cur: nat, k: nat)
    requires Inv(m, base) && cur < NR_TASKS && k < 16 && (cur == 0 ==> k == 0) && m.ram[0][16 * cur + k].p
    ensures if cur == 0 then m.ram[0][16 * cur + k].frame == 1 < base else 16 <= 16 * cur + k < 1024
  {
  }

  lemma NewTable(m: Memory, d: nat, g: nat)
    requires d < 1024 && 0 < g < FRAMES && g != GetFreePage(m).1 && GetFreePage(m).1 < 0x10_0000
    ensures var (m0, t) := GetFreePage(m); var m1 := Put(m0, 0, d, Entry(t));
      m1.ram[g] == m.ram[g] && m1.tasks == m.tasks
  {
  }

  lemma FirstElsewhere(m: Memory, d: nat, e: nat, cnt: nat, g: nat)
    requires d < 1024 && e < 1024 && cnt <= 1024 && 0 < g < FRAMES
    requires g != GetFreePage(m).1 && GetFreePage(m).1 < 0x10_0000 && g != m.ram[0][e].frame
    ensures FirstTable(m, d, e, cnt).tasks == m.tasks && FirstTable(m, d, e, cnt).ram[g] == m.ram[g]
  {
    hide ShareEntries;
    NewTable(m, d, g);
    var (m0, t) := GetFreePage(m);
    var m1 := Put(m0, 0, d, Entry(t));
    hide GetFreePage, Put, Entry;
    ShareElsewhere(m1, t, m.ram[0][e].frame, 0, cnt, g);
    ShareTasks(m1, t, m.ram[0][e].frame, 0, cnt);
  }

  lemma FirstKeepsPcb(m: Memory, base: nat, nr: nat, cur: nat, k: nat, s: nat)
    requires Inv(m, base) && 1 <= nr < NR_TASKS && cur < NR_TASKS && k < 16 && (cur == 0 ==> k == 0)
    requires 1 <= s < NR_TASKS && m.tasks[s] != 0 && !Stuck(m, cur, k)
    ensures PcbKept(m, AfterFirst(m, nr, cur, k), s)
  {
    hide FirstTable;
    if m.ram[0][16 * cur + k].p {
      PcbFrame(m, base, s);
      FreeFrame(m, base);
      FreeIsSearched(m, base);
      SlotTable(m, base, cur, k);
      hide Inv, Free, GetFreePage;
      FirstElsewhere(m, 16 * nr + k, 16 * cur + k, Entries(cur), m.tasks[s]);
    }
  }

  lemma {:induction false} ShareTasks(m: Memory, to: nat, from: nat, i: nat, cnt: nat)
    requires i <= cnt <= 1024
    ensures ShareEntries(m, to, from, i, cnt).tasks == m.tasks
    decreases cnt - i
  {
    if i < cnt { ShareTasks(ShareEntry(m, to, from, i), to, from, i + 1, cnt); }
  }

  lemma {:induction false} CopyKeepsPcb(m: Memory, base: nat, nr: nat, cur: nat, k: nat, n: nat, s: nat)
    requires CopyPre(m, base, nr, cur, k, n) && 1 <= s < NR_TASKS && m.tasks[s] != 0
    ensures PcbKept(m, CopyTables(m, 16 * nr + k, 16 * cur + k, n, Entries(cur)).0, s)
    decreases n
  {
    hide Copies, Except, Taken, Mirror, CopyPost, Inv, AfterFirst, Stuck;
    if n > 0 {
      CopyRound(m, base, nr, cur, k, n);
      if !Stuck(m, cur, k) {
        FirstKeepsPcb(m, base, nr, cur, k, s);
        FirstOk(m, base, nr, cur, k, n);
        CopyKeepsPcb(AfterFirst(m, nr, cur, k), base, nr, cur, k + 1, n - 1, s);
      }
    }
  }

  lemma TableKeepsPcb(m: Memory, base: nat, d: nat, s: nat)
    requires Inv(m, base) && 16 <= d < 1024 && 1 <= s < NR_TASKS && m.tasks[s] != 0
    ensures PcbKept(m, DropTable(m, d), s)
  {
    PcbFrame(m, base, s);
    DropTableOk(m, base, d);
    hide Inv, Except, DropEntries;
    if m.ram[0][d].p { DropElsewhere(m, m.ram[0][d].frame, 0, m.tasks[s]); }
  }

  lemma {:induction false} DropKeepsPcb(m: Memory, base: nat, d: nat, n: nat, s: nat)
    requires Inv(m, base) && 16 <= d && d + n <= 1024 && 1 <= s < NR_TASKS && m.tasks[s] != 0
    ensures PcbKept(m, DropTables(m, d, n), s)
    decreases n
  {
    hide Except, Inv, DropTable;
    if n > 0 {
      TableKeepsPcb(m, base, d, s);
      DropTableOk(m, base, d);
      DropKeepsPcb(DropTable(m, d), base, d + 1, n - 1, s);
    }
  }

  // ---------- fork ----------

  /** The number of page tables under a limit of `pages` pages. */
  function Tables(pages: nat): (n: nat)
    requires 1 <= pages <= 0x4000
    ensures n <= 16 && (pages <= 1024 ==> n == 1)
  {
    SameDirs(pages); Dirs(4096 * pages)
  }

  /** copyProcess may be called: slot nr is empty, slot cur runs, and its limit is whole pages. */
  ghost predicate ForkPre(m: Memory, base: nat, nr: nat, cur: nat, pages: nat) {
    && Inv(m, base) && 1 <= nr < NR_TASKS && cur < NR_TASKS && 1 <= pages <= 0x4000
    && m.tasks[nr] == 0 && m.tasks[cur] != 0 && (cur == 0 ==> pages <= 1024)
  }

  /** What the kernel reads and writes between m and m' lies where its own map leads: every frame in
      use, every frame taken, and when it did not succeed every frame, since it had taken them all. */
  ghost predicate Reaches(m: Memory, m': Memory, base: nat, ok: bool) {
    forall f: nat | base <= f < FRAMES && (!ok || m.count[f] != 0 || m'.count[f] != 0) :: KernelMaps(m, f)
  }

  /** A successful fork: slot nr has its PCB as written and copies of the parent's pages and no
      others, its descriptors are in the GDT, the lowest free frames were taken, one for the PCB and one
      for each table, and no other slot can tell that anything happened. */
  ghost predicate Forked(m: Memory, m': Memory, base: nat, nr: nat, cur: nat, pages: nat, pcb: Words.Page)
    requires nr < NR_TASKS && cur < NR_TASKS && 1 <= pages <= 0x4000
  {
    var n := Tables(pages);
    && Descriptors.Fits(nr) && 0 < m'.tasks[nr] < FRAMES && m'.tasks == m.tasks[nr := m'.tasks[nr]]
    && m'.ram[m'.tasks[nr]] == pcb && PcbsKept(m, m')
    && Copies(m, m', nr, cur, 0, n) && (forall d | 16 * nr + n <= d < 16 * nr + 16 :: !m'.ram[0][d].p)
    && Except(m, m', base, 16 * nr, 16 * nr + n)
    && Taken(m, m', 1 + Need(m, 16 * cur, n)) && Reaches(m, m', base, true)
  }

  /** A failed fork: MEM_MAP, the slots and what every process sees are as before. */
  ghost predicate Unforked(m: Memory, m': Memory, base: nat) {
    Restored(m, m', base) && Reaches(m, m', base, false)
  }

  ghost predicate Restored(m: Memory, m': Memory, base: nat) {
    && m'.tasks == m.tasks && m'.count == m.count && PcbsKept(m, m')
    && (forall d, i | 16 <= d < 1024 && 0 <= i < 1024 :: SameAt(m, m', d, i))
    && (forall d | 16 <= d < 1024 :: m'.ram[0][d].p == m.ram[0][d].p)
    && (forall d | 0 <= d < 16 :: m'.ram[0][d] == m.ram[0][d])
    && (forall f | 1 <= f < base && f < FRAMES :: m'.ram[f] == m.ram[f])
  }

  /** Slot nr with its PCB and no tables yet. */
  lemma PcbsApart(m: Memory, base: nat, nr: nat, pcb: Words.Page)
    requires Inv(m, base) && nr < NR_TASKS && m.tasks[nr] == 0 && GetFreePage(m).1 < FRAMES
    ensures var (m1, f) := GetFreePage(m);
      var m2 := m1.(tasks := m1.tasks[nr := f], ram := m1.ram[f := pcb]);
      forall s | 1 <= s < NR_TASKS && m.tasks[s] != 0 :: PcbKept(m, m2, s)
  {
    forall s | 1 <= s < NR_TASKS && m.tasks[s] != 0 ensures m.tasks[s] != GetFreePage(m).1 {
      PcbFrame(m, base, s);
    }
  }

  lemma PcbOk(m: Memory, base: nat, nr: nat, cur: nat, pages: nat, pcb: Words.Page)
    requires ForkPre(m, base, nr, cur, pages) && GetFreePage(m).1 != 0
    ensures var (m1, f) := GetFreePage(m);
      var m2 := m1.(tasks := m1.tasks[nr := f], ram := m1.ram[f := pcb]);
      var n := Tables(pages);
      && CopyPre(m2, base, nr, cur, 0, n) && Except(m, m2, base, 0, 0)
      && Taken(m, m2, 1) && Need(m2, 16 * cur, n) == Need(m, 16 * cur, n)
      && forall s | 1 <= s < NR_TASKS && m.tasks[s] != 0 :: PcbKept(m, m2, s)
  {
    PcbsApart(m, base, nr, pcb);
    var (m1, f) := GetFreePage(m);
    var m2 := m1.(tasks := m1.tasks[nr := f], ram := m1.ram[f := pcb]);
    AllocPcb(m, base, nr, pcb);
    FreeFrame(m, base);
    assert Free(m2) == Free(m) - {f};
    OneTaken(m, m2, f);
    NeedKept(m, m2, 16 * cur, Tables(pages));
    forall d | 16 * nr <= d < 16 * nr + 16 ensures !m2.ram[0][d].p { assert SlotOf(d) == nr; }
    forall k, i | 0 <= k < 16 && 0 <= i < 1024 ensures MirrorAt(m2, base, nr, cur, k, i) {}
  }

  lemma PcbsJoin(m: Memory, m1: Memory, m2: Memory, nr: nat)
    requires nr < NR_TASKS && m1.tasks[nr] != 0
    requires (forall s | 1 <= s < NR_TASKS && m.tasks[s] != 0 :: PcbKept(m, m1, s)) && PcbsKept(m1, m2)
    ensures PcbsKept(m, m2)
  {
    forall s | 1 <= s < NR_TASKS && m.tasks[s] != 0 ensures PcbKept(m, m2, s) {
      assert PcbKept(m, m1, s) && PcbKept(m1, m2, s);
    }
  }

  lemma ForkSucceeds(m: Memory, m2: Memory, m': Memory, base: nat, nr: nat, cur: nat, pages: nat,
        pcb: Words.Page)
    requires ForkPre(m, base, nr, cur, pages) && Except(m, m2, base, 0, 0)
    requires 0 < m2.tasks[nr] < FRAMES && m2.tasks == m.tasks[nr := m2.tasks[nr]] && m2.ram[m2.tasks[nr]] == pcb
    requires (forall s | 1 <= s < NR_TASKS && m.tasks[s] != 0 :: PcbKept(m, m2, s)) && PcbsKept(m2, m')
    requires CopyPost(m2, m', true, base, nr, cur, 0, Tables(pages))
    requires Taken(m, m2, 1) && Need(m2, 16 * cur, Tables(pages)) == Need(m, 16 * cur, Tables(pages))
    ensures Taken(m, m', 1 + Need(m, 16 * cur, Tables(pages)))
    ensures Forked(m, m', base, nr, cur, pages, pcb) <==> nr <= 61 && Reaches(m, m', base, true)
  {
    hide Reaches;
    TakenJoin(m, m2, m', 1, Need(m, 16 * cur, Tables(pages)));
    PcbsJoin(m, m2, m', nr);
    var n := Tables(pages);
    forall d, i | 16 <= d < 1024 && !(16 * nr <= d < 16 * nr + n) && 0 <= i < 1024 ensures SameAt(m, m', d, i) {
      assert SameAt(m, m2, d, i) && SameAt(m2, m', d, i);
    }
    forall c, j | 0 <= c < n && 0 <= j < 1024 ensures ViewAt(m', 16 * nr + c, j) == Copied(m, cur, c, j) {
      assert ViewAt(m', 16 * nr + c, j) == Copied(m2, cur, c, j);
      assert cur > 0 ==> SameAt(m, m2, 16 * cur + c, j);
    }
    forall d | 16 * nr + n <= d < 16 * nr + 16 ensures !m'.ram[0][d].p { assert SlotOf(d) == nr; }
  }

  /** The tables are dropped again, then the PCB. */
  lemma ForkFails(m: Memory, m2: Memory, m3: Memory, base: nat, nr: nat, cur: nat, pages: nat)
    requires ForkPre(m, base, nr, cur, pages) && Except(m, m2, base, 0, 0)
    requires CopyPre(m2, base, nr, cur, 0, Tables(pages)) && m2.tasks == m.tasks[nr := m2.tasks[nr]]
    requires CopyPost(m2, m3, false, base, nr, cur, 0, Tables(pages))
    requires (forall s | 1 <= s < NR_TASKS && m.tasks[s] != 0 :: PcbKept(m, m2, s)) && PcbsKept(m2, m3)
    ensures var m4 := DropTables(m3, 16 * nr, Tables(pages));
      var m' := FreePage(m4.(tasks := m4.tasks[nr := 0]), m2.tasks[nr]);
      Inv(m', base) && Restored(m, m', base) && m4.tasks == m2.tasks
  {
    hide Exclusive, Counted, Ranged, Mirror, Copies;
    var n := Tables(pages);
    var m4 := DropTables(m3, 16 * nr, n);
    UndoneOk(m2, m3, base, nr, n);
    forall d | 16 <= d < 1024 && SlotOf(d) == nr ensures !m4.ram[0][d].p {
      assert !m.ram[0][d].p;
    }
    forall s | 1 <= s < NR_TASKS && m.tasks[s] != 0 ensures PcbKept(m, m4, s) {
      assert PcbKept(m, m2, s) && PcbKept(m2, m3, s);
      DropKeepsPcb(m3, base, 16 * nr, n, s);
    }
    FreePcb(m4, base, nr);
    var m' := FreePage(m4.(tasks := m4.tasks[nr := 0]), m2.tasks[nr]);
    forall d, i | 16 <= d < 1024 && 0 <= i < 1024 ensures SameAt(m, m', d, i) {
      assert SameAt(m, m2, d, i) && SameAt(m2, m4, d, i) && SameAt(m4, m', d, i);
    }
    forall r | IsRef(r) ensures Target(m', r) == Target(m, r) {
      if r.Page? { assert SameAt(m, m', r.d, r.i); }
    }
    SameCounts(m, m', base);
  }

  /** Fork is all or nothing, and it succeeds exactly when there are free frames for the PCB and
      for every page table of the parent. This is so of the code exactly when the kernel reaches the
      frames concerned (`PagingReach` says when), and when it succeeds, for the slots up to 61: the
      descriptors of the last two lie past the end of the GDT. */
  lemma ForkOk(m: Memory, base: nat, nr: nat, cur: nat, pages: nat, pcb: Words.Page)
    requires ForkPre(m, base, nr, cur, pages)
    ensures var r := CopyProcess(m, nr, cur, pages, pcb);
      && Inv(r.0, base)
      && (r.1 <==> |Free(m)| >= 1 + Need(m, 16 * cur, Tables(pages)))
      && (r.1 ==> Taken(m, r.0, 1 + Need(m, 16 * cur, Tables(pages))))
      && (if r.1 then Forked(m, r.0, base, nr, cur, pages, pcb) <==> nr <= 61 && Reaches(m, r.0, base, true)
          else Unforked(m, r.0, base) <==> Reaches(m, r.0, base, false))
  {
    hide Inv, Except, Mirror, CopyTables, Forked, Restored, Reaches, Copies, Need;
    var (m1, f) := GetFreePage(m);
    ForkSearch(m, base, nr, cur, pages);
    if f != 0 {
      var m2 := m1.(tasks := m1.tasks[nr := f], ram := m1.ram[f := pcb]);
      var n := Tables(pages);
      PcbOk(m, base, nr, cur, pages, pcb);
      CopyTablesOk(m2, base, nr, cur, 0, n);
      var r := CopyTables(m2, 16 * nr, 16 * cur, n, Entries(cur));
      SameDirs(pages);
      forall s | 1 <= s < NR_TASKS && m2.tasks[s] != 0 ensures PcbKept(m2, r.0, s) {
        CopyKeepsPcb(m2, base, nr, cur, 0, n, s);
      }
      if r.1 {
        ForkSucceeds(m, m2, r.0, base, nr, cur, pages, pcb);
      } else {
        ForkFails(m, m2, r.0, base, nr, cur, pages);
      }
    }
  }

  lemma ForkSearch(m: Memory, base: nat, nr: nat, cur: nat, pages: nat)
    requires ForkPre(m, base, nr, cur, pages)
    ensures GetFreePage(m).1 == 0 <==> |Free(m)| == 0
    ensures GetFreePage(m).1 == 0 ==> GetFreePage(m).0 == m && Restored(m, m, base)
  {
    FreeIsSearched(m, base);
    FreeFrame(m, base);
  }
}
