/** The global descriptor table: each slot has a TSS and an LDT descriptor (kernel/process.c,
    include/protect.h). */
module Descriptors {
  const GDT_SIZE := 128
  const FIRST_TSS := 3    // SELECTOR_FIRST_TASK_TSS >> 3
  const FIRST_LDT := 4    // SELECTOR_FIRST_TASK_LDT >> 3

  datatype Desc = Other | Tss(nr: nat) | Ldt(nr: nat)

  /** The table, and the indices past its end that were stored to. What lies there is not known. */
  datatype Gdt = Gdt(descs: seq<Desc>, beyond: set<nat>)

  function TssIndex(nr: nat): nat { FIRST_TSS + 2 * nr }
  function LdtIndex(nr: nat): nat { FIRST_LDT + 2 * nr }

  function Store(g: Gdt, k: nat, d: Desc): Gdt {
    if k < |g.descs| then g.(descs := g.descs[k := d]) else g.(beyond := g.beyond + {k})
  }

  /** The end of copyProcess. */
  function Install(g: Gdt, nr: nat): Gdt {
    Store(Store(g, TssIndex(nr), Tss(nr)), LdtIndex(nr), Ldt(nr))
  }

  /** Both descriptors of the slot are in the table. */
  predicate Fits(nr: nat) { TssIndex(nr) < GDT_SIZE && LdtIndex(nr) < GDT_SIZE }

  /** Slot `n` finds its own descriptors, as far as the table goes. */
  predicate Own(g: Gdt, n: nat) {
    && (TssIndex(n) < |g.descs| ==> g.descs[TssIndex(n)] == Tss(n))
    && (LdtIndex(n) < |g.descs| ==> g.descs[LdtIndex(n)] == Ldt(n))
  }

  /** A fork into slot nr leaves everything outside the table alone exactly when nr is at most 61; it
      gives the slot its own descriptors and takes none from another. */
  lemma InstallOk(g: Gdt, nr: nat, n: nat)
    requires |g.descs| == GDT_SIZE && forall k | k in g.beyond :: k < TssIndex(nr)
    ensures var r := Install(g, nr);
      && |r.descs| == GDT_SIZE && (r.beyond == g.beyond <==> Fits(nr)) && (Fits(nr) <==> nr <= 61)
      && Own(r, nr) && (Own(g, n) ==> Own(r, n))
  {
    if !Fits(nr) { assert LdtIndex(nr) in Install(g, nr).beyond && LdtIndex(nr) !in g.beyond; }
  }

  /** The selectors that SWITCH_TO and the child's TSS use for slot nr, shifted as the processor does,
      are those indices. */
  lemma SelectorsMatch(nr: nat)
    ensures (nr * 16 + 0x18) / 8 == TssIndex(nr) && (nr * 16 + 0x20) / 8 == LdtIndex(nr)
  {
  }
}
