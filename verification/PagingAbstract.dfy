/** The memories that processes believe in: a machine without frames, tables, counts or write
    protection, and copy-on-write as a refinement of it over whole runs. */
module PagingAbstract {
  import opened Limits
  import opened Words
  import opened PagingModel
  import opened PagingInvariant
  import opened PagingSteps
  import opened PagingFork
  import opened PagingRuns
  import BootMemory

  /** What each page of the slots from 1 on shows, and low memory from frame 1 up to the cache's end. */
  datatype State = State(views: imap<(nat, nat), View>, low: seq<Words.Page>)

  /** Did the event succeed, and what was in the page directory, which processes can read at page 0
      but this machine does not have? */
  datatype Outcome = Outcome(ok: bool, directory: Words.Page)

  ghost predicate Complete(s: State) {
    forall d: nat, i: nat | 16 <= d < 1024 && i < 1024 :: (d, i) in s.views
  }

  /** A page of slot cur as a child gets it; slot 0 has its pages of low memory. */
  ghost function Inherited(s: State, cur: nat, k: nat, i: nat): View
    requires Complete(s) && cur < NR_TASKS && k < 16 && i < 1024
  {
    if cur > 0 then s.views[(16 * cur + k, i)] else if i < LOW_PAGES then Low(i) else Absent
  }

  ghost function AfterFork(s: State, nr: nat, cur: nat, pages: nat, d: nat, i: nat): View
    requires Complete(s) && nr < NR_TASKS && cur < NR_TASKS && 1 <= pages <= 0x4000 && 16 <= d < 1024 && i < 1024
  {
    if SlotOf(d) != nr then s.views[(d, i)]
    else if d - 16 * nr < Tables(pages) then Inherited(s, cur, d - 16 * nr, i) else Absent
  }

  /** The contents of a frame of low memory. */
  function LowPage(s: State, o: Outcome, f: nat): Words.Page {
    if 1 <= f <= |s.low| then s.low[f - 1] else o.directory
  }

  /** A fork copies the parent's memory, a store changes one word of one process, the kernel changes
      low memory; what fails changes nothing. */
  ghost function Act(s: State, e: Event, o: Outcome): (r: State)
    requires Complete(s)
    requires e.Fork? ==> e.nr < NR_TASKS && e.cur < NR_TASKS && 1 <= e.pages <= 0x4000
    requires e.Write? ==> e.a.Valid() && 16 <= e.a.d
    requires e.KernelWrite? ==> e.off < 1024
    ensures Complete(r)
  {
    if !o.ok then s
    else match e
      case Fork(nr, cur, pages, _) =>
        s.(views := imap p: (nat, nat) | 16 <= p.0 < 1024 && p.1 < 1024 :: AfterFork(s, nr, cur, pages, p.0, p.1))
      case Write(a, w) =>
        var v := s.views[(a.d, a.i)];
        s.(views := s.views[(a.d, a.i) :=
          if v.Absent? then v else Own((if v.Low? then LowPage(s, o, v.frame) else v.words)[a.off := w])])
      case KernelWrite(f, off, w) =>
        if 1 <= f <= |s.low| then s.(low := s.low[f - 1 := s.low[f - 1][off := w]]) else s
      case DirectoryWrite(_) => s
  }

  /** What memory m shows. */
  ghost function Shown(m: Memory, base: nat): (s: State)
    requires 1 <= base <= FRAMES
    ensures Complete(s)
  {
    State(imap p: (nat, nat) | 16 <= p.0 < 1024 && p.1 < 1024 :: ViewAt(m, p.0, p.1), m.ram[1..base])
  }

  /** The pages a fork gives are those that the parent is shown. */
  lemma InheritedIsCopied(m: Memory, base: nat, cur: nat, k: nat, i: nat)
    requires Inv(m, base) && cur < NR_TASKS && k < 16 && i < 1024 && (cur == 0 ==> k == 0)
    ensures Inherited(Shown(m, base), cur, k, i) == Copied(m, cur, k, i)
  {
  }

  /** Low pages are those of low memory. */
  lemma LowFrames(m: Memory, base: nat, d: nat, i: nat)
    requires Inv(m, base) && 16 <= d < 1024 && i < 1024 && ViewAt(m, d, i).Low?
    ensures ViewAt(m, d, i).frame < base
  {
  }

  lemma ForkCell(m: Memory, base: nat, e: Event, d: nat, i: nat)
    requires Inv(m, base) && e.Fork? && ForkPre(m, base, e.nr, e.cur, e.pages) && 16 <= d < 1024 && i < 1024
    ensures Act(Shown(m, base), e, Outcome(true, m.ram[0])).views[(d, i)] == Private(m, e, true, d, i)
  {
    hide Counted, Exclusive, Ranged, Slotted, Inherited, Copied, ViewAt;
    var s, k := Shown(m, base), d - 16 * e.nr;
    assert s.views[(d, i)] == ViewAt(m, d, i);
    assert Act(s, e, Outcome(true, m.ram[0])).views[(d, i)] == AfterFork(s, e.nr, e.cur, e.pages, d, i);
    if SlotOf(d) == e.nr && k < Tables(e.pages) { InheritedIsCopied(m, base, e.cur, k, i); }
  }

  lemma WriteCell(m: Memory, base: nat, e: Event, d: nat, i: nat)
    requires Inv(m, base) && e.Write? && e.a.Valid() && 16 <= e.a.d && 16 <= d < 1024 && i < 1024
    ensures Act(Shown(m, base), e, Outcome(true, m.ram[0])).views[(d, i)] == Private(m, e, true, d, i)
  {
    if ViewAt(m, e.a.d, e.a.i).Low? { LowFrames(m, base, e.a.d, e.a.i); }
    hide Counted, Exclusive, Ranged, Slotted, ViewAt;
    var t := Act(Shown(m, base), e, Outcome(true, m.ram[0]));
    assert (d, i) != (e.a.d, e.a.i) ==> t.views[(d, i)] == ViewAt(m, d, i);
  }

  lemma ActViews(m: Memory, m': Memory, base: nat, e: Event, ok: bool)
    requires Inv(m, base) && Enabled(m, base, e) && Refines(m, m', base, e, ok)
    ensures Shown(m', base).views == Act(Shown(m, base), e, Outcome(ok, m.ram[0])).views
  {
    hide Counted, Exclusive, Ranged, Slotted, ViewAt, Private;
    var s, t := Shown(m', base), Act(Shown(m, base), e, Outcome(ok, m.ram[0]));
    forall d: nat, i: nat | 16 <= d < 1024 && i < 1024 ensures t.views[(d, i)] == s.views[(d, i)] {
      assert ViewAt(m', d, i) == Private(m, e, ok, d, i);
      ActCell(m, base, e, ok, d, i);
    }
    ActDomain(m, base, e, ok);
  }

  lemma ActCell(m: Memory, base: nat, e: Event, ok: bool, d: nat, i: nat)
    requires Inv(m, base) && Enabled(m, base, e) && 16 <= d < 1024 && i < 1024
    ensures Act(Shown(m, base), e, Outcome(ok, m.ram[0])).views[(d, i)] == Private(m, e, ok, d, i)
  {
    hide Counted, Exclusive, Ranged, Slotted;
    if ok && e.Fork? { ForkCell(m, base, e, d, i); }
    if ok && e.Write? { WriteCell(m, base, e, d, i); }
  }

  lemma ActDomain(m: Memory, base: nat, e: Event, ok: bool)
    requires Inv(m, base) && Enabled(m, base, e)
    ensures forall p :: p in Act(Shown(m, base), e, Outcome(ok, m.ram[0])).views <==> 16 <= p.0 < 1024 && p.1 < 1024
  {
    hide Counted, Exclusive, Ranged, Slotted, ViewAt;
  }

  lemma ActLow(m: Memory, m': Memory, base: nat, e: Event, ok: bool)
    requires Inv(m, base) && Enabled(m, base, e) && Refines(m, m', base, e, ok)
    requires e.KernelWrite? ==> ok && m' == Put(m, e.f, e.off, e.w)
    ensures Shown(m', base).low == Act(Shown(m, base), e, Outcome(ok, m.ram[0])).low
  {
    hide Counted, Exclusive, Ranged, Slotted, ViewAt, Private;
    var t := Act(Shown(m, base), e, Outcome(ok, m.ram[0]));
    forall f: nat | 1 <= f < base ensures m'.ram[f] == t.low[f - 1] {}
  }

  /** One event, seen by the processes. */
  lemma ActOk(m: Memory, base: nat, e: Event)
    requires Inv(m, base) && Enabled(m, base, e) && Contained(m, base, e)
    ensures Shown(Step(m, e).0, base) == Act(Shown(m, base), e, Outcome(Step(m, e).1, m.ram[0]))
  {
    hide Counted, Exclusive, Ranged, Slotted, Refines, Act, Shown, Contained;
    StepOk(m, base, e);
    var (m', ok) := Step(m, e);
    ActViews(m, m', base, e, ok);
    ActLow(m, m', base, e, ok);
  }

  // ---------- runs ----------

  ghost function Outcomes(m: Memory, base: nat, es: seq<Event>): (os: seq<Outcome>)
    requires Legal(m, base, es)
    ensures |os| == |es|
    decreases |es|
  {
    if es == [] then []
    else [Outcome(Step(m, es[0]).1, m.ram[0])] + Outcomes(Step(m, es[0]).0, base, es[1..])
  }

  ghost predicate AllMeant(es: seq<Event>) {
    forall k | 0 <= k < |es| :: Meant(es[k])
  }

  predicate Meant(e: Event) {
    match e
    case Fork(nr, cur, pages, _) => nr < NR_TASKS && cur < NR_TASKS && 1 <= pages <= 0x4000
    case Write(a, _) => a.Valid() && 16 <= a.d
    case KernelWrite(_, off, _) => off < 1024
    case DirectoryWrite(b) => BootMemory.HeaderAt(b) < 0x1_0000_0000
  }

  ghost function Play(s: State, es: seq<Event>, os: seq<Outcome>): State
    requires Complete(s) && |os| == |es| && AllMeant(es)
    decreases |es|
  {
    if es == [] then s
    else
      assert Meant(es[0]);
      Play(Act(s, es[0], os[0]), es[1..], os[1..])
  }

  lemma {:induction false} LegalIsMeant(m: Memory, base: nat, es: seq<Event>)
    requires Legal(m, base, es)
    ensures AllMeant(es)
    decreases |es|
  {
    hide Step, Contained;
    if es != [] {
      LegalIsMeant(Step(m, es[0]).0, base, es[1..]);
      assert Meant(es[0]);
      forall k | 0 <= k < |es| ensures Meant(es[k]) {
        assert k > 0 ==> es[k] == es[1..][k - 1];
      }
    }
  }

  /** Over every run, what the processes see is what they would see if there were no sharing: the
      machine with private memories, given which events succeed, ends in the state that is shown. */
  lemma {:induction false} RunRefines(m: Memory, base: nat, es: seq<Event>)
    requires Inv(m, base) && Legal(m, base, es) && AllMeant(es)
    ensures 1 <= base <= FRAMES
      && Shown(Run(m, base, es), base) == Play(Shown(m, base), es, Outcomes(m, base, es))
    decreases |es|
  {
    hide Counted, Exclusive, Ranged, Slotted, Step, Act, Shown, Contained, Meant;
    if es != [] {
      var m1 := Step(m, es[0]).0;
      StepOk(m, base, es[0]);
      ActOk(m, base, es[0]);
      assert AllMeant(es[1..]) by {
        forall k | 0 <= k < |es| - 1 ensures Meant(es[1..][k]) { assert es[1..][k] == es[k + 1]; }
      }
      RunRefines(m1, base, es[1..]);
      assert Outcomes(m, base, es)[1..] == Outcomes(m1, base, es[1..]);
    }
  }
}
