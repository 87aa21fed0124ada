/** What follows over every interleaving, and exactly when it would not. */
module BufferCacheRuns {
  import opened BufferModel
  import opened BufferCache
  import opened BufferCacheInv

  // ---------- runs ----------

  /** Events that can happen one after the other, whatever the callers and the device do. */
  ghost predicate Possible(c: Cache, es: seq<Event>)
    decreases |es|
  {
    Shape(c) && (es == [] || (Enabled(c, es[0]) && Possible(Step(c, es[0]), es[1..])))
  }

  ghost function Final(c: Cache, es: seq<Event>): (r: Cache)
    requires Possible(c, es)
    ensures Shape(r) && |r.hs| == |c.hs|
    decreases |es|
  {
    if es == [] then c else Final(Step(c, es[0]), es[1..])
  }

  /** One process moves, to a place and with buffers that exist. */
  predicate Moved(c: Cache, c': Cache, p: nat) {
    && p < |c.procs| == |c'.procs| && c'.procs == c.procs[p := c'.procs[p]]
    && PcOk(c'.procs[p].pc, |c.hs|)
    && (forall b | b in c'.procs[p].held :: b < |c.hs|)
    && (forall b | b in c'.flight :: b < |c.hs|)
  }

  lemma GettingMoves(c: Cache, p: nat, refuse: bool, full: bool)
    requires Shape(c) && Enabled(c, Run(p, refuse, full)) && InGetblk(c.procs[p].pc)
    ensures Moved(c, Advance(c, p, refuse, full), p)
  {
    hide Order, Find, Best, MoveToTail;
    assert PcOk(c.procs[p].pc, |c.hs|);
    match c.procs[p].pc
    case Get(q) =>
    case Hashed(q, b) =>
    case Taking(q, b) =>
  }

  lemma SyncingMoves(c: Cache, p: nat, refuse: bool, full: bool)
    requires Shape(c) && Enabled(c, Run(p, refuse, full)) && c.procs[p].pc.Syncing?
    ensures Moved(c, Advance(c, p, refuse, full), p)
  {
    hide Order;
    assert PcOk(c.procs[p].pc, |c.hs|);
  }

  lemma OthersMove(c: Cache, p: nat, refuse: bool, full: bool)
    requires Shape(c) && Enabled(c, Run(p, refuse, full))
    requires !InGetblk(c.procs[p].pc) && !c.procs[p].pc.Syncing?
    ensures Moved(c, Advance(c, p, refuse, full), p)
  {
    hide Order, Find, Best, MoveToTail;
    assert PcOk(c.procs[p].pc, |c.hs|);
    match c.procs[p].pc
    case Locking(_, _) =>
    case Queueing(_, _) =>
    case Reading(_, _) =>
    case Releasing(_, _) =>
  }

  lemma AdvanceOrder(c: Cache, p: nat, refuse: bool, full: bool)
    requires Shape(c) && Enabled(c, Run(p, refuse, full))
    ensures Order(Advance(c, p, refuse, full).order, |c.hs|)
  {
    hide Order, Find, Best, MoveToTail;
    match c.procs[p].pc
    case Get(q) =>
    case Hashed(q, b) =>
    case Taking(q, b) => MoveKeepsOrder(c.order, |c.hs|, b);
    case Syncing(_, _, _) =>
    case Locking(_, _) =>
    case Queueing(_, _) =>
    case Reading(_, _) =>
    case Releasing(_, _) =>
  }

  lemma MovedShape(c: Cache, c': Cache, p: nat)
    requires Shape(c) && Moved(c, c', p) && |c'.hs| == |c'.data| == |c.hs| && Order(c'.order, |c.hs|)
    ensures Shape(c')
  {
    hide Order, PcOk;
    forall r | 0 <= r < |c.procs|
      ensures PcOk(c'.procs[r].pc, |c.hs|) && forall b | b in c'.procs[r].held :: b < |c.hs|
    {
      assert r != p ==> c'.procs[r] == c.procs[r];
    }
  }

  lemma CallMoves(c: Cache, p: nat, op: Op)
    requires Shape(c) && Enabled(c, Call(p, op))
    ensures var r := Step(c, Call(p, op));
      Moved(c, r, p) && |r.hs| == |r.data| == |c.hs| && r.order == c.order
  {
    hide Order;
    match op
    case GetBlk(dev, block) =>
    case BRead(dev, block) =>
    case BRelse(b) =>
    case SyncDev(dev) =>
    case Modify(b, d) =>
  }

  /** After every event all numbers are buffers and the free list names each once. */
  lemma ShapeKept(c: Cache, e: Event)
    requires Shape(c) && Enabled(c, e)
    ensures Shape(Step(c, e))
  {
    hide Order, Advance, Moved;
    match e
    case Call(p, op) =>
      CallMoves(c, p, op);
      MovedShape(c, Step(c, e), p);
    case Run(p, refuse, full) =>
      if InGetblk(c.procs[p].pc) { GettingMoves(c, p, refuse, full); }
      else if c.procs[p].pc.Syncing? { SyncingMoves(c, p, refuse, full); }
      else { OthersMove(c, p, refuse, full); }
      AdvanceOrder(c, p, refuse, full);
      MovedShape(c, Advance(c, p, refuse, full), p);
    case Complete(b, ok) =>
      assert Step(c, e).procs == c.procs && Step(c, e).order == c.order;
  }

  /** initBuffer: no buffer stands for a block, nothing is held, locked or under way. */
  predicate Initial(c: Cache) {
    && |c.data| == |c.hs| > 0 && Order(c.order, |c.hs|) && c.flight == map[]
    && (forall b | 0 <= b < |c.hs| ::
          c.hs[b].dev == 0 && c.hs[b].count == 0 && !c.hs[b].dirt && !c.hs[b].lock && !c.hs[b].uptodate)
    && (forall p | 0 <= p < |c.procs| :: c.procs[p] == Proc(multiset{}, Idle, Nothing))
  }

  lemma {:induction false} NoHolders(procs: seq<Proc>, b: nat)
    requires forall p | 0 <= p < |procs| :: procs[p] == Proc(multiset{}, Idle, Nothing)
    ensures Holders(procs, b) == 0
  {
    if procs != [] { NoHolders(procs[1..], b); }
  }

  lemma InitialInv(c: Cache)
    requires Initial(c)
    ensures Inv(c, c.disk)
  {
    forall b: nat | b < |c.hs| ensures c.hs[b].count == Holders(c.procs, b) < BYTE { NoHolders(c.procs, b); }
  }

  /** Events one after the other, each keeping to `Sound`. */
  ghost predicate Legal(c: Cache, es: seq<Event>)
    decreases |es|
  {
    es == [] || (Shape(c) && Enabled(c, es[0]) && Sound(c, es[0]) && Legal(Step(c, es[0]), es[1..]))
  }

  /** The cache and the flat store after the events. */
  ghost function After(c: Cache, st: Store, es: seq<Event>): (Cache, Store)
    requires Legal(c, es)
    decreases |es|
  {
    if es == [] then (c, st) else After(Step(c, es[0]), Stored(c, st, es[0]), es[1..])
  }

  /** A run that keeps to `Sound` is a run. */
  lemma {:induction false} LegalIsPossible(c: Cache, st: Store, es: seq<Event>)
    requires Shape(c) && Legal(c, es)
    ensures Possible(c, es) && Final(c, es) == After(c, st, es).0
    decreases |es|
  {
    if es != [] {
      ShapeKept(c, es[0]);
      LegalIsPossible(Step(c, es[0]), Stored(c, st, es[0]), es[1..]);
    }
  }

  /** In every interleaving at most one header stands for a block, b_count is the number of holders,
      and buffers and disk agree with the flat store. */
  lemma {:induction false} RunInv(c: Cache, st: Store, es: seq<Event>)
    requires Inv(c, st) && Legal(c, es)
    ensures Inv(After(c, st, es).0, After(c, st, es).1)
    decreases |es|
  {
    if es != [] {
      StepInv(c, st, es[0]);
      RunInv(Step(c, es[0]), Stored(c, st, es[0]), es[1..]);
    }
  }

  lemma FromBoot(c: Cache, es: seq<Event>)
    requires Initial(c) && Legal(c, es)
    ensures Inv(After(c, c.disk, es).0, After(c, c.disk, es).1)
  {
    InitialInv(c);
    RunInv(c, c.disk, es);
  }

  // ---------- bread ----------

  /** When bread(dev, block) returns a buffer, the caller holds it, it stands for that block and is up
      to date, and it contains what was last stored there. */
  lemma ReadReturns(c: Cache, st: Store, p: nat, refuse: bool, full: bool)
    requires Inv(c, st) && Enabled(c, Run(p, refuse, full)) && Sound(c, Run(p, refuse, full))
    requires ReqOf(c.procs[p].pc).Some? && ReqOf(c.procs[p].pc).value.read && ReqOf(c.procs[p].pc).value.dev != 0
    requires var c' := Advance(c, p, refuse, full); c'.procs[p].pc.Idle?
    ensures var q, c' := ReqOf(c.procs[p].pc).value, Advance(c, p, refuse, full);
      && c'.procs[p].got.Got?
      && var b := c'.procs[p].got.b;
         && b < |c'.hs| && b in c'.procs[p].held
         && c'.hs[b].dev == q.dev && c'.hs[b].block == q.block && c'.hs[b].uptodate
         && c'.data[b] == At(st, q.dev, q.block)
  {
    hide Advance, Unique, Counted, Locks, At, Find;
    var pc := c.procs[p].pc;
    Returning(c, p, refuse, full);
    var b := pc.b;
    assert KeyOk(c, pc);
    assert c.data[b] == At(st, c.hs[b].dev, c.hs[b].block);
  }

  /** Where a bread can return. */
  lemma Returning(c: Cache, p: nat, refuse: bool, full: bool)
    requires Shape(c) && Enabled(c, Run(p, refuse, full))
    requires ReqOf(c.procs[p].pc).Some? && ReqOf(c.procs[p].pc).value.read
    requires Advance(c, p, refuse, full).procs[p].pc.Idle?
    ensures var pc := c.procs[p].pc;
      && (pc.Hashed? || pc.Reading?) && c.hs[pc.b].uptodate && Advance(c, p, refuse, full) == Return(c, p, pc.b)
  {
    hide Find, Best, MoveToTail;
    match c.procs[p].pc
    case Get(q) =>
    case Hashed(q, b) =>
    case Taking(q, b) =>
    case Syncing(_, _, _) =>
    case Locking(_, _) =>
    case Queueing(_, _) =>
    case Reading(_, _) =>
  }

  /** After the lock wait of getHashTable the buffer is still the one looked up: its test never fails. */
  lemma RecheckSucceeds(c: Cache, st: Store, p: nat)
    requires Inv(c, st) && p < |c.procs| && c.procs[p].pc.Hashed?
    ensures var pc := c.procs[p].pc; c.hs[pc.b].dev == pc.q.dev && c.hs[pc.b].block == pc.q.block
  {
    assert KeyOk(c, c.procs[p].pc);
  }

  /** A buffer changes its key only when nobody holds it and it is clean and unlocked. */
  lemma KeyStable(c: Cache, st: Store, e: Event, b: nat)
    requires Inv(c, st) && Enabled(c, e) && b < |c.hs|
    ensures var h, h' := c.hs[b], Step(c, e).hs[b];
      h'.dev != h.dev || h'.block != h.block ==>
        Holders(c.procs, b) == 0 && !h.dirt && !h.lock && e.Run? && c.procs[e.p].pc.Taking? && c.procs[e.p].pc.b == b
  {
    hide Agrees, Unique, Locks, Procs, Find, Best, MoveToTail, Holders;
    if e.Run? {
      match c.procs[e.p].pc
      case Get(q) =>
      case Hashed(q, b) =>
      case Taking(q, b) =>
      case Syncing(_, _, _) =>
      case Locking(_, _) =>
      case Queueing(_, _) =>
      case Reading(_, _) =>
      case Releasing(_, _) =>
    }
  }

  // ---------- exactly when ----------

  /** One more holder in getHashTable: the count is right afterwards exactly when it was below 255. */
  lemma WrapExact(c: Cache, st: Store, p: nat, b: nat)
    requires Inv(c, st) && p < |c.procs| && c.procs[p].pc.Get? && b < |c.hs|
    requires Find(c.hs, c.procs[p].pc.q.dev, c.procs[p].pc.q.block, 0) == Some(b)
    ensures var c' := Advance(c, p, false, false);
      c'.hs[b].count == Holders(c'.procs, b) <==> c.hs[b].count < BYTE - 1
  {
    var c' := Advance(c, p, false, false);
    HoldersUpdate(c.procs, p, c'.procs[p], b);
  }

  /** After a commit no block has two headers exactly when no other header has the key as it is
      stored, in sixteen bits. */
  lemma CommitUnique(c: Cache, q: Req, b: nat)
    requires Shape(c) && Unique(c.hs) && b < |c.hs|
    ensures Unique(Commit(c, q, b).hs) <==>
      q.dev % SHORT == 0 || forall a | 0 <= a < |c.hs| && a != b :: !Keyed(c.hs[a], q.dev % SHORT, q.block)
  {
    var hs' := Commit(c, q, b).hs;
    if Unique(hs') {
      forall a | 0 <= a < |c.hs| && a != b && q.dev % SHORT != 0 ensures !Keyed(c.hs[a], q.dev % SHORT, q.block) {
        assert hs'[a] == c.hs[a] && hs'[b].block == q.block;
      }
    }
  }

  /** Device numbers that the header can hold, or that become "no device". */
  predicate Narrow(dev: nat) { dev < SHORT || dev % SHORT == 0 }

  /** The lookup before the commit sees to that exactly for those: looking for an untruncated number
      of another kind finds nothing. `BufferWitness.TwoBuffers` is a run on which it goes wrong. */
  lemma NarrowExact(dev: nat, block: nat)
    ensures Narrow(dev) <==>
      forall c: Cache, q: Req, b: nat | Shape(c) && Unique(c.hs) && b < |c.hs| && q.dev == dev && q.block == block
        && Find(c.hs, dev, block, 0).None? :: Unique(Commit(c, q, b).hs)
  {
    if Narrow(dev) {
      forall c: Cache, q: Req, b: nat | Shape(c) && Unique(c.hs) && b < |c.hs| && q.dev == dev && q.block == block
        && Find(c.hs, dev, block, 0).None?
        ensures Unique(Commit(c, q, b).hs)
      {
        CommitUnique(c, q, b);
      }
    } else {
      var h := Header(dev % SHORT, block, false, false, 0, false);
      var c := Cache([h, h.(dev := 0)], [[], []], [0, 1], map[], map[], []);
      var q := Req(dev, block, false);
      assert c.order[0] == 0 && c.order[1] == 1;
      assert Keyed(c.hs[0], dev % SHORT, block);
      CommitUnique(c, q, 1);
    }
  }

  /** The next lookup finds the buffer just committed exactly for the device numbers from 1 to 65535. */
  lemma CommitFound(c: Cache, q: Req, b: nat)
    requires Shape(c) && b < |c.hs| && Find(c.hs, q.dev, q.block, 0).None?
    ensures Find(Commit(c, q, b).hs, q.dev, q.block, 0) == Some(b) <==> 0 < q.dev < SHORT
  {
    var hs := Commit(c, q, b).hs;
    assert forall a | 0 <= a < |hs| && a != b :: hs[a] == c.hs[a] && !Keyed(hs[a], q.dev, q.block);
    assert Keyed(hs[b], q.dev, q.block) <==> 0 < q.dev < SHORT;
  }

  // ---------- runs with any number of holders and any device ----------

  ghost predicate AsksNarrow(c: Cache) {
    forall p | 0 <= p < |c.procs| && ReqOf(c.procs[p].pc).Some? :: Narrow(ReqOf(c.procs[p].pc).value.dev)
  }

  predicate CallsNarrow(e: Event) {
    match e
    case Call(_, GetBlk(dev, _)) => Narrow(dev)
    case Call(_, BRead(dev, _)) => Narrow(dev)
    case _ => true
  }

  lemma AsksSet(c: Cache, c': Cache, p: nat)
    requires AsksNarrow(c) && p < |c.procs| == |c'.procs| && c'.procs == c.procs[p := c'.procs[p]]
    requires ReqOf(c'.procs[p].pc).Some? ==> Narrow(ReqOf(c'.procs[p].pc).value.dev)
    ensures AsksNarrow(c')
  {
  }

  lemma AsksKept(c: Cache, e: Event)
    requires Shape(c) && Enabled(c, e) && AsksNarrow(c) && CallsNarrow(e)
    ensures AsksNarrow(Step(c, e))
  {
    hide Shape, Narrow, Advance;
    match e {
      case Run(p, refuse, full) =>
        SameRequest(c, p, refuse, full);
        AsksSet(c, Advance(c, p, refuse, full), p);
      case Call(p, op) => AsksSet(c, Step(c, e), p);
      case Complete(_, _) =>
    }
  }

  /** A process goes on with the request it has, or with none. */
  lemma SameRequest(c: Cache, p: nat, refuse: bool, full: bool)
    requires Shape(c) && Enabled(c, Run(p, refuse, full))
    ensures var r := Advance(c, p, refuse, full);
      && r.procs == c.procs[p := r.procs[p]]
      && (ReqOf(r.procs[p].pc).Some? ==> ReqOf(r.procs[p].pc) == ReqOf(c.procs[p].pc))
  {
    hide Order, Find, Best, MoveToTail;
    match c.procs[p].pc
    case Get(q) =>
    case Hashed(q, b) =>
    case Taking(q, b) =>
    case Syncing(_, _, _) =>
    case Locking(_, _) =>
    case Queueing(_, _) =>
    case Reading(_, _) =>
    case Releasing(_, _) =>
  }

  predicate Committing(c: Cache, e: Event)
    requires Shape(c) && Enabled(c, e)
  {
    e.Run? && c.procs[e.p].pc.Taking? &&
    var b, q := c.procs[e.p].pc.b, c.procs[e.p].pc.q;
    !c.hs[b].lock && c.hs[b].count == 0 && !c.hs[b].dirt && Find(c.hs, q.dev, q.block, 0).None?
  }

  /** Without a commit no key and no place in the free list changes. */
  lemma KeysKept(c: Cache, e: Event)
    requires Shape(c) && Enabled(c, e) && !Committing(c, e)
    ensures var c' := Step(c, e);
      && c'.order == c.order && |c'.hs| == |c.hs|
      && forall b | 0 <= b < |c.hs| :: c'.hs[b].dev == c.hs[b].dev && c'.hs[b].block == c.hs[b].block
  {
    hide Find, Best, MoveToTail;
    if e.Run? {
      match c.procs[e.p].pc
      case Get(q) =>
      case Hashed(q, b) =>
      case Taking(q, b) =>
      case Syncing(_, _, _) =>
      case Locking(_, _) =>
      case Queueing(_, _) =>
      case Reading(_, _) =>
      case Releasing(_, _) =>
    }
  }

  /** With such device numbers no block ever has two headers, however many holders there are and
      whatever the device does. */
  lemma {:induction false} UniqueRuns(c: Cache, es: seq<Event>)
    requires Possible(c, es) && Unique(c.hs) && AsksNarrow(c) && forall i | 0 <= i < |es| :: CallsNarrow(es[i])
    ensures Unique(Final(c, es).hs)
    decreases |es|
  {
    hide Order, Find, Best, MoveToTail, Unique, AsksNarrow, Narrow, CallsNarrow, Step;
    if es != [] {
      AsksKept(c, es[0]);
      UniqueStep(c, es[0]);
      UniqueRuns(Step(c, es[0]), es[1..]);
    }
  }

  lemma UniqueStep(c: Cache, e: Event)
    requires Shape(c) && Enabled(c, e) && Unique(c.hs) && AsksNarrow(c)
    ensures Unique(Step(c, e).hs)
  {
    hide Order, Best, MoveToTail;
    if Committing(c, e) {
      var q, b := c.procs[e.p].pc.q, c.procs[e.p].pc.b;
      assert Narrow(q.dev);
      CommitUnique(c, q, b);
      assert Step(c, e).hs == Commit(c, q, b).hs;
    } else {
      KeysKept(c, e);
    }
  }

  // ---------- a write that fails ----------

  /** A failed WRITE: the flat store is still right exactly when the disk already had the data. */
  lemma FailedWrite(c: Cache, st: Store, b: nat)
    requires Inv(c, st) && b in c.flight && c.flight[b].Write? && c.hs[b].dev != 0
    ensures Agrees(Step(c, Complete(b, false)), st) <==> At(c.disk, c.hs[b].dev, c.hs[b].block) == c.data[b]
  {
    var c' := Step(c, Complete(b, false));
    var h := c.hs[b];
    forall a: nat | a < |c.hs| && Keyed(c'.hs[a], h.dev, h.block) ensures !Pending(c', a) { assert a == b; }
    assert Settled(c', h.dev, h.block);
    forall dev: nat, block: nat | dev != 0 && Settled(c', dev, block) && (dev != h.dev || block != h.block)
      ensures At(c'.disk, dev, block) == At(st, dev, block)
    {
      forall a: nat | a < |c.hs| && Keyed(c.hs[a], dev, block) ensures !Pending(c, a) {
        assert Keyed(c'.hs[a], dev, block) && !Pending(c', a);
      }
      assert Settled(c, dev, block);
    }
  }
}
