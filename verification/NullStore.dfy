/** Where the store of insertIntoQueues through NULL goes, and what it does to the identity map. */
module NullStore {
  import opened Words
  import opened BufferLists
  import opened BootPaging
  import BootMemory
  import PagingModel
  import PagingRuns

  const PREV_OFFSET := 20    // of b_prev in BUFFER_HEAD: address 0x14 when the header is NULL

  /** The insertion of header b starts a chain. */
  predicate Starts(q: Queues, b: nat)
    requires Sized(q) && b < q.Nil()
  {
    q.t[b].h.dev != 0 && q.hash[q.HashOf(b)] == q.Nil()
  }

  /** The words of low memory after the insertion: one is overwritten when the node at NULL is. */
  function AfterInsert(w: seq<nat>, q: Queues, b: nat): seq<nat>
    requires Sized(q) && b < q.Nil() && |w| > PREV_OFFSET / 4
  {
    if Starts(q, b) then w[PREV_OFFSET / 4 := BootMemory.HeaderAt(Insert(q, b).t[q.Nil()].prev)] else w
  }

  /** That word is a directory entry, and the event that `PagingRuns` has for it. */
  lemma StoreHits(m: PagingModel.Memory, w: seq<nat>, q: Queues, b: nat)
    requires Sized(q) && b < q.Nil() && |w| >= 1024 && BootMemory.HeaderAt(b) < 0x1_0000_0000 && Starts(q, b)
    requires forall k | 0 <= k < 1024 :: w[k] < 0x1_0000_0000 && m.ram[0][k] == Decode(w[k])
    ensures var w', m' := AfterInsert(w, q, b), PagingRuns.Step(m, PagingRuns.DirectoryWrite(b)).0;
      forall k | 0 <= k < 1024 :: w'[k] < 0x1_0000_0000 && m'.ram[0][k] == Decode(w'[k])
  {
    hide Insert;
    BufferLists.NullStore(q, b);
  }

  /** After the insertion of a header every address is still mapped to itself, or, when the header
      starts a chain, every address outside the 4 MB from 20 MB on; the processor faults on those. */
  lemma AfterStore(was: seq<nat>, w: seq<nat>, mem: nat, q: Queues, b: nat, a: nat)
    requires 0 < mem < 0x1_0000_0000 && Mapped(was, w, TableCount(mem)) && |w| >= 1024 + 1024 * TableCount(mem)
    requires (forall k | 0 <= k < |w| :: w[k] < 0x1_0000_0000) && a < TableCount(mem) * 0x40_0000
    requires Sized(q) && b < q.Nil() && BootMemory.HeaderAt(b) < 0x1_0000_0000
    ensures var w' := AfterInsert(w, q, b);
      && (forall k | 0 <= k < |w'| :: w'[k] < 0x1_0000_0000)
      && Translate(w', a)
         == if Starts(q, b) && 20 * 0x10_0000 <= a < 24 * 0x10_0000 then Fault else Physical(a, true, true)
  {
    hide Insert, Decode;
    BufferLists.NullStore(q, b);
    PagingRuns.HeaderIsEven(b);
    Identity(was, w, mem, a);
    var d := a / 0x40_0000;
    ReadsBack(1 + d);
    assert w[d] == 4096 * (1 + d) + FLAGS;
  }

  /** The identity map survives the insertion exactly when the chain was not empty, the header is of no
      device, or memory ends at 20 MB or below. */
  lemma MapSurvives(was: seq<nat>, w: seq<nat>, mem: nat, q: Queues, b: nat)
    requires 0 < mem < 0x1_0000_0000 && Mapped(was, w, TableCount(mem)) && |w| >= 1024 + 1024 * TableCount(mem)
    requires forall k | 0 <= k < |w| :: w[k] < 0x1_0000_0000
    requires Sized(q) && b < q.Nil() && BootMemory.HeaderAt(b) < 0x1_0000_0000
    ensures (forall k | 0 <= k < |AfterInsert(w, q, b)| :: AfterInsert(w, q, b)[k] < 0x1_0000_0000)
    ensures (forall a: nat | a < TableCount(mem) * 0x40_0000 ::
               Translate(AfterInsert(w, q, b), a) == Physical(a, true, true))
      <==> !Starts(q, b) || mem <= 20 * 0x10_0000
  {
    hide Translate, Mapped, Starts;
    var w' := AfterInsert(w, q, b);
    AfterStore(was, w, mem, q, b, 0);
    assert forall k | 0 <= k < |w'| :: w'[k] < 0x1_0000_0000;
    hide AfterInsert;
    forall a: nat | a < TableCount(mem) * 0x40_0000
      ensures Translate(w', a)
           == if Starts(q, b) && 20 * 0x10_0000 <= a < 24 * 0x10_0000 then Fault else Physical(a, true, true)
    {
      AfterStore(was, w, mem, q, b, a);
    }
    if mem > 20 * 0x10_0000 {
      var a: nat := 20 * 0x10_0000;
      assert a < TableCount(mem) * 0x40_0000;
      assert Starts(q, b) ==> Translate(w', a) == Fault;
    }
  }
}
