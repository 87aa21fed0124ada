/** What the calls of fs/buffer.c deliver to the process that made them, in every interleaving. */
module BufferCalls {
  import opened BufferModel
  import opened BufferCache
  import opened BufferCacheInv
  import opened BufferCacheRuns
  import opened BufferSync

  // ---------- a held buffer ----------

  /** A buffer that somebody holds keeps its key, and stays up to date once it is. */
  lemma HeldStays(c: Cache, st: Store, e: Event, b: nat)
    requires Inv(c, st) && Enabled(c, e) && Sound(c, e) && b < |c.hs| && Holders(c.procs, b) > 0
    ensures var h, h' := c.hs[b], Step(c, e).hs[b];
      h'.dev == h.dev && h'.block == h.block && (h.uptodate ==> h'.uptodate)
  {
    KeyStable(c, st, e, b);
    if c.hs[b].uptodate { UpToDateStays(c, st, e, b); }
  }

  lemma UpToDateStays(c: Cache, st: Store, e: Event, b: nat)
    requires Inv(c, st) && Enabled(c, e) && Sound(c, e) && b < |c.hs| && Holders(c.procs, b) > 0 && c.hs[b].uptodate
    ensures Step(c, e).hs[b].uptodate
  {
    hide Agrees, Unique, Procs, Find, Best, MoveToTail, Holders;
    if e.Run? {
      match c.procs[e.p].pc
      case Get(q) =>
      case Hashed(q, b) =>
      case Taking(q, b) =>
      case Syncing(_, _, _) =>
      case Locking(_, _) =>
      case Queueing(_, _) =>
      case Reading(_, _) =>
      case Releasing(_, _) =>
    }
  }

  /** The buffers returned to p are held. */
  lemma HeldIsCounted(c: Cache, p: nat, b: nat)
    requires p < |c.procs| && (b in c.procs[p].held || HeldAt(c.procs[p].pc) == Some(b))
    ensures Holders(c.procs, b) > 0
  {
    HoldersUpdate(c.procs, p, c.procs[p], b);
  }

  /** An event of another process or of the device leaves p where it is. */
  lemma OthersLeave(c: Cache, e: Event, p: nat)
    requires Shape(c) && Enabled(c, e) && p < |c.procs| && !(e.Call? && e.p == p) && !(e.Run? && e.p == p)
    ensures Step(c, e).procs[p] == c.procs[p]
  {
    if e.Run? { SameRequest(c, e.p, e.refuse, e.full); }
  }

  // ---------- getblk and bread ----------

  /** The call for q has ended: with a buffer that the process holds, of that block, and up to date for
      bread; or, bread only, with nothing. */
  predicate Ended(c: Cache, p: nat, q: Req)
    requires p < |c.procs|
  {
    c.procs[p].pc.Idle? &&
    match c.procs[p].got
    case Got(b) =>
      && b in c.procs[p].held && b < |c.hs| && c.hs[b].dev == q.dev && c.hs[b].block == q.block
      && (q.read ==> c.hs[b].uptodate)
    case Failed => q.read
    case Nothing => false
  }

  /** Places that only bread comes to. */
  predicate ForBread(pc: Pc) {
    pc.Reading? || ((pc.Locking? || pc.Queueing?) && pc.why.ForRead?)
  }

  /** The process works for q, or has given the buffer up for good, or has ended. */
  predicate Serving(c: Cache, p: nat, q: Req)
    requires p < |c.procs|
  {
    || (ReqOf(c.procs[p].pc) == Some(q) && (ForBread(c.procs[p].pc) ==> q.read))
    || (q.read && c.procs[p].pc.Releasing? && c.procs[p].pc.failed)
    || Ended(c, p, q)
  }

  lemma LookupServes(c: Cache, st: Store, p: nat, q: Req, refuse: bool, full: bool)
    requires Inv(c, st) && Enabled(c, Run(p, refuse, full)) && Serving(c, p, q)
    requires c.procs[p].pc.Get? || c.procs[p].pc.Taking?
    ensures Serving(Advance(c, p, refuse, full), p, q)
  {
    hide Agrees, Unique, Counted, Locks, Find, Best, MoveToTail;
    assert KeyOk(c, c.procs[p].pc) && PcOk(c.procs[p].pc, |c.hs|);
    hide Procs, Order, BackOk;
    match c.procs[p].pc
    case Get(_) =>
    case Taking(_, b) =>
  }

  lemma RecheckServes(c: Cache, st: Store, p: nat, q: Req, refuse: bool, full: bool)
    requires Inv(c, st) && Enabled(c, Run(p, refuse, full)) && Serving(c, p, q) && c.procs[p].pc.Hashed?
    ensures Serving(Advance(c, p, refuse, full), p, q)
  {
    hide Agrees, Unique, Counted, Locks, Find, Best, MoveToTail;
    assert KeyOk(c, c.procs[p].pc) && PcOk(c.procs[p].pc, |c.hs|);
    hide Procs, Order, BackOk;
    match c.procs[p].pc
    case Hashed(_, b) =>
  }

  lemma WriteServes(c: Cache, st: Store, p: nat, q: Req, refuse: bool, full: bool)
    requires Inv(c, st) && Enabled(c, Run(p, refuse, full)) && Serving(c, p, q) && !InGetblk(c.procs[p].pc)
    requires !c.procs[p].pc.Reading? && !c.procs[p].pc.Releasing?
    ensures Serving(Advance(c, p, refuse, full), p, q)
  {
    hide Agrees, Unique, Counted, Locks, Find, Best, MoveToTail;
    assert KeyOk(c, c.procs[p].pc) && PcOk(c.procs[p].pc, |c.hs|);
    hide Procs, Order, BackOk;
    match c.procs[p].pc
    case Syncing(_, _, _) =>
    case Locking(_, _) =>
    case Queueing(_, _) =>
  }

  lemma ReadServes(c: Cache, st: Store, p: nat, q: Req, refuse: bool, full: bool)
    requires Inv(c, st) && Enabled(c, Run(p, refuse, full)) && Serving(c, p, q)
    requires c.procs[p].pc.Reading? || c.procs[p].pc.Releasing?
    ensures Serving(Advance(c, p, refuse, full), p, q)
  {
    hide Agrees, Unique, Counted, Locks, Find, Best, MoveToTail;
    assert KeyOk(c, c.procs[p].pc) && PcOk(c.procs[p].pc, |c.hs|);
    hide Procs, Order, BackOk;
    match c.procs[p].pc
    case Reading(_, _) =>
    case Releasing(_, _) =>
  }

  lemma ServeStep(c: Cache, st: Store, e: Event, p: nat, q: Req)
    requires Inv(c, st) && Enabled(c, e) && Sound(c, e) && p < |c.procs| && !(e.Call? && e.p == p) && Serving(c, p, q)
    ensures Serving(Step(c, e), p, q)
  {
    if e.Run? && e.p == p {
      hide Inv, Serving, Advance, Sound;
      var pc := c.procs[p].pc;
      if pc.Get? || pc.Taking? { LookupServes(c, st, p, q, e.refuse, e.full); }
      else if pc.Hashed? { RecheckServes(c, st, p, q, e.refuse, e.full); }
      else if pc.Reading? || pc.Releasing? { ReadServes(c, st, p, q, e.refuse, e.full); }
      else { WriteServes(c, st, p, q, e.refuse, e.full); }
    } else {
      OthersLeave(c, e, p);
      hide Step, Enabled, Sound;
      if c.procs[p].got.Got? && c.procs[p].got.b in c.procs[p].held {
        HeldIsCounted(c, p, c.procs[p].got.b);
        HeldStays(c, st, e, c.procs[p].got.b);
      }
    }
  }

  /** p makes no other call during es. */
  predicate Waits(es: seq<Event>, p: nat) { forall i | 0 <= i < |es| :: !(es[i].Call? && es[i].p == p) }

  lemma {:induction false} ServeRun(c: Cache, st: Store, es: seq<Event>, p: nat, q: Req)
    requires Inv(c, st) && Legal(c, es) && p < |c.procs| && Waits(es, p) && Serving(c, p, q)
    ensures var (c', st') := After(c, st, es); Inv(c', st') && |c'.procs| == |c.procs| && Serving(c', p, q)
    decreases |es|
  {
    hide Inv, Step, Serving, Sound, Enabled, Shape;
    if es != [] {
      StepInv(c, st, es[0]);
      ServeStep(c, st, es[0], p, q);
      ServeRun(Step(c, es[0]), Stored(c, st, es[0]), es[1..], p, q);
    }
  }

  /** bread(dev, block): when it has ended, however long ago, its caller either holds a buffer of that
      block that contains what was last stored there, or was told that it failed. */
  lemma BreadDelivers(c: Cache, st: Store, es: seq<Event>, p: nat, dev: nat, block: nat)
    requires Inv(c, st) && dev != 0 && Legal(c, [Call(p, BRead(dev, block))] + es) && Waits(es, p)
    requires var c' := After(c, st, [Call(p, BRead(dev, block))] + es).0; p < |c'.procs| && c'.procs[p].pc.Idle?
    ensures var (c', st') := After(c, st, [Call(p, BRead(dev, block))] + es);
      && c'.procs[p].got != Nothing
      && (c'.procs[p].got.Got? ==>
            var b := c'.procs[p].got.b;
            && b in c'.procs[p].held && b < |c'.hs| && b < |c'.data| && Keyed(c'.hs[b], dev, block) && c'.hs[b].uptodate
            && c'.data[b] == At(st', dev, block))
  {
    var e, q := Call(p, BRead(dev, block)), Req(dev, block, true);
    assert ([e] + es)[1..] == es && ([e] + es)[0] == e;
    StepInv(c, st, e);
    ServeRun(Step(c, e), Stored(c, st, e), es, p, q);
  }

  /** getblk(dev, block) never fails: when it has ended, its caller holds a buffer of that block. */
  lemma GetblkDelivers(c: Cache, st: Store, es: seq<Event>, p: nat, dev: nat, block: nat)
    requires Inv(c, st) && Legal(c, [Call(p, GetBlk(dev, block))] + es) && Waits(es, p)
    requires var c' := After(c, st, [Call(p, GetBlk(dev, block))] + es).0; p < |c'.procs| && c'.procs[p].pc.Idle?
    ensures var c' := After(c, st, [Call(p, GetBlk(dev, block))] + es).0;
      && c'.procs[p].got.Got?
      && var b := c'.procs[p].got.b;
         b in c'.procs[p].held && b < |c'.hs| && c'.hs[b].dev == dev && c'.hs[b].block == block
  {
    var e, q := Call(p, GetBlk(dev, block)), Req(dev, block, false);
    assert ([e] + es)[1..] == es && ([e] + es)[0] == e;
    StepInv(c, st, e);
    ServeRun(Step(c, e), Stored(c, st, e), es, p, q);
  }

  // ---------- when bread fails ----------

  /** Nothing has gone wrong for p: if it waits for a READ, the buffer is up to date or the READ is
      under way. */
  predicate Unfailed(c: Cache, p: nat)
    requires p < |c.procs|
  {
    && c.procs[p].got != Failed
    && match c.procs[p].pc
       case Reading(_, b) => b < |c.hs| && (c.hs[b].uptodate || (b in c.flight && c.flight[b].Read?))
       case Releasing(_, failed) => !failed
       case _ => true
  }

  /** The device is not refused to p, and no request fails. */
  predicate Healthy(e: Event, p: nat) {
    !(e.Run? && e.p == p && e.refuse) && !(e.Complete? && !e.ok)
  }

  lemma OwnUnfailed(c: Cache, st: Store, p: nat, full: bool)
    requires Inv(c, st) && Enabled(c, Run(p, false, full)) && Unfailed(c, p)
    ensures Unfailed(Advance(c, p, false, full), p)
  {
    hide Agrees, Unique, Counted, Procs, Find, Best, MoveToTail;
    match c.procs[p].pc
    case Get(_) =>
    case Hashed(_, b) =>
    case Taking(_, b) =>
    case Syncing(_, _, _) =>
    case Locking(_, _) =>
    case Queueing(_, _) =>
    case Reading(_, _) =>
    case Releasing(_, _) =>
  }

  /** A READ under way stays so until it ends, and then the buffer is up to date. */
  lemma FlightStays(c: Cache, st: Store, e: Event, b: nat)
    requires Inv(c, st) && Enabled(c, e) && !(e.Complete? && !e.ok) && b in c.flight && c.flight[b].Read?
    ensures var c' := Step(c, e); c'.hs[b].uptodate || (b in c'.flight && c'.flight[b].Read?)
  {
    hide Agrees, Unique, Counted, Find, Best, MoveToTail;
    if e.Run? {
      assert LockOk(c, c.procs[e.p].pc);
      hide Procs, Locks;
      match c.procs[e.p].pc
      case Get(_) =>
      case Hashed(_, _) =>
      case Taking(_, _) =>
      case Syncing(_, _, _) =>
      case Locking(_, _) =>
      case Queueing(_, _) =>
      case Reading(_, _) =>
      case Releasing(_, _) =>
    }
  }

  lemma UnfailedStep(c: Cache, st: Store, e: Event, p: nat)
    requires Inv(c, st) && Enabled(c, e) && Sound(c, e) && p < |c.procs| && Healthy(e, p) && Unfailed(c, p)
    ensures Unfailed(Step(c, e), p)
  {
    if e.Run? && e.p == p {
      OwnUnfailed(c, st, p, e.full);
    } else if !(e.Call? && e.p == p) {
      OthersLeave(c, e, p);
      if c.procs[p].pc.Reading? {
        var b := c.procs[p].pc.b;
        HeldIsCounted(c, p, b);
        if c.hs[b].uptodate { HeldStays(c, st, e, b); } else { FlightStays(c, st, e, b); }
      }
    }
  }

  /** No bread fails for a process to which the device is not refused, while no request fails. */
  lemma {:induction false} BreadSucceeds(c: Cache, st: Store, es: seq<Event>, p: nat)
    requires Inv(c, st) && Legal(c, es) && p < |c.procs| && Unfailed(c, p)
    requires forall i | 0 <= i < |es| :: Healthy(es[i], p)
    ensures var c' := After(c, st, es).0; |c'.procs| == |c.procs| && Unfailed(c', p) && c'.procs[p].got != Failed
    decreases |es|
  {
    hide Inv, Step, Sound, Enabled, Shape;
    if es != [] {
      StepInv(c, st, es[0]);
      UnfailedStep(c, st, es[0], p);
      BreadSucceeds(Step(c, es[0]), Stored(c, st, es[0]), es[1..], p);
    }
  }

  /** A bread that finds its buffer unlocked and not up to date gives it back and fails. */
  lemma BreadFails(c: Cache, st: Store, p: nat, full: bool)
    requires Inv(c, st) && p < |c.procs| && c.procs[p].pc.Reading?
    requires var b := c.procs[p].pc.b; !c.hs[b].lock && !c.hs[b].uptodate
    ensures var b := c.procs[p].pc.b; var c1 := Advance(c, p, false, full);
      && Shape(c1) && Enabled(c1, Run(p, false, full))
      && var c2 := Advance(c1, p, false, full);
         c2.procs[p].pc.Idle? && c2.procs[p].got == Failed && c2.procs[p].held == c.procs[p].held
         && c2.hs[b].count == c.hs[b].count - 1
  {
    hide Agrees, Unique, Locks, Order;
    HeldIsCounted(c, p, c.procs[p].pc.b);
    ShapeKept(c, Run(p, false, full));
  }

  // ---------- waiting for locks ----------

  /** getblk and bread return unlocked buffers only. */
  lemma ReturnsUnlocked(c: Cache, p: nat, refuse: bool, full: bool)
    requires Shape(c) && Enabled(c, Run(p, refuse, full)) && ReqOf(c.procs[p].pc).Some?
    requires Advance(c, p, refuse, full).procs[p].pc.Idle?
    ensures var c' := Advance(c, p, refuse, full);
      c'.procs[p].got.Got? && c'.procs[p].got.b < |c'.hs| && !c'.hs[c'.procs[p].got.b].lock
  {
    hide Order, Find, Best, MoveToTail;
    match c.procs[p].pc
    case Get(_) =>
    case Hashed(_, b) =>
    case Taking(_, b) =>
    case Syncing(_, _, _) =>
    case Locking(_, _) =>
    case Queueing(_, _) =>
    case Reading(_, _) =>
  }

  /** A buffer loses a holder only while it is unlocked: nobody is left to wait for its request alone. */
  lemma LeavesUnlocked(c: Cache, st: Store, e: Event, b: nat)
    requires Inv(c, st) && Enabled(c, e) && b < |c.hs| && Step(c, e).hs[b].count < c.hs[b].count
    requires c.hs[b].count < BYTE - 1
    ensures !c.hs[b].lock && e.Run? && c.procs[e.p].pc.Releasing? && c.procs[e.p].pc.b == b
  {
    hide Agrees, Unique, Counted, Locks, Find, Best, MoveToTail;
    if e.Run? {
      assert KeyOk(c, c.procs[e.p].pc);
      hide Procs;
      match c.procs[e.p].pc
      case Get(_) =>
      case Hashed(_, _) =>
      case Taking(_, _) =>
      case Syncing(_, _, _) =>
      case Locking(_, _) =>
      case Queueing(_, _) =>
      case Reading(_, _) =>
      case Releasing(_, _) =>
    }
  }

  // ---------- who has a lock ----------

  /** A locked buffer has a request under way, or a process about to make one. */
  ghost predicate Owned(c: Cache, b: nat) {
    b in c.flight || exists p :: 0 <= p < |c.procs| && Asking(c, p, b)
  }

  predicate Asking(c: Cache, p: nat, b: nat)
    requires p < |c.procs|
  {
    c.procs[p].pc.Queueing? && c.procs[p].pc.b == b
  }

  ghost predicate LocksOwned(c: Cache) {
    forall b: nat | b < |c.hs| && c.hs[b].lock :: Owned(c, b)
  }

  /** How a process's step can change one lock. */
  lemma LockChange(c: Cache, st: Store, p: nat, refuse: bool, full: bool, b: nat)
    requires Inv(c, st) && Enabled(c, Run(p, refuse, full)) && b < |c.hs|
    ensures var c' := Advance(c, p, refuse, full);
      && (c'.hs[b].lock && !c.hs[b].lock ==> Asking(c', p, b))
      && (b in c.flight ==> b in c'.flight)
      && (Asking(c, p, b) ==> Asking(c', p, b) || b in c'.flight)
  {
    hide Agrees, Unique, Counted, Procs, Locks, Find, Best, MoveToTail;
    match c.procs[p].pc
    case Get(_) =>
    case Hashed(_, _) =>
    case Taking(_, _) =>
    case Syncing(_, _, _) =>
    case Locking(_, _) =>
    case Queueing(_, _) =>
    case Reading(_, _) =>
    case Releasing(_, _) =>
  }

  lemma OwnedStep(c: Cache, st: Store, e: Event)
    requires Inv(c, st) && Enabled(c, e) && LocksOwned(c)
    ensures LocksOwned(Step(c, e))
  {
    hide Agrees, Unique, Counted, Procs, Advance;
    var c' := Step(c, e);
    forall b: nat | b < |c'.hs| && c'.hs[b].lock ensures Owned(c', b) {
      match e {
        case Run(p, refuse, full) =>
          LockChange(c, st, p, refuse, full, b);
          SameRequest(c, p, refuse, full);
          if c.hs[b].lock && b !in c.flight {
            var r :| 0 <= r < |c.procs| && Asking(c, r, b);
            assert r != p ==> Asking(c', r, b);
          }
        case Call(p, _) =>
          if b !in c.flight {
            var r :| 0 <= r < |c.procs| && Asking(c, r, b);
            assert Asking(c', r, b);
          }
        case Complete(_, _) =>
          if b !in c.flight {
            var r :| 0 <= r < |c.procs| && Asking(c, r, b);
            assert Asking(c', r, b);
          }
      }
    }
  }

  /** Over every run from boot no lock is left behind: who waits for one waits for a request. */
  lemma {:induction false} OwnedRun(c: Cache, st: Store, es: seq<Event>)
    requires Inv(c, st) && Legal(c, es) && LocksOwned(c)
    ensures LocksOwned(After(c, st, es).0)
    decreases |es|
  {
    hide Inv, Step, Sound, Enabled, Shape, LocksOwned;
    if es != [] {
      StepInv(c, st, es[0]);
      OwnedStep(c, st, es[0]);
      OwnedRun(Step(c, es[0]), Stored(c, st, es[0]), es[1..]);
    }
  }

  /** A process that is let run stays where it is exactly when it waits for a lock, or for a buffer
      while all are held. */
  predicate MustWait(c: Cache, pc: Pc)
    requires Shape(c) && PcOk(pc, |c.hs|)
  {
    match pc
    case Get(q) => !Present(c.hs, q.dev, q.block) && forall b: nat | b < |c.hs| :: c.hs[b].count != 0
    case Hashed(_, b) => c.hs[b].lock
    case Taking(_, b) => c.hs[b].lock
    case Syncing(dev, i, _) =>
      i < 2 * |c.hs| && c.hs[i % |c.hs|].dev == dev && c.hs[i % |c.hs|].lock
    case Locking(b, _) => c.hs[b].lock
    case Queueing(_, _) => false
    case Reading(_, b) => c.hs[b].lock
    case Releasing(b, _) => c.hs[b].lock
    case Idle => true
  }

  lemma LookupWaits(c: Cache, p: nat, refuse: bool)
    requires Shape(c) && Enabled(c, Run(p, refuse, false)) && c.procs[p].pc.Get?
    ensures Advance(c, p, refuse, false).procs[p].pc == c.procs[p].pc <==> MustWait(c, c.procs[p].pc)
  {
    GetGoesOn(c, p);
    hide Find, Best, Order, Present;
    assert Advance(c, p, refuse, false) == Advance(c, p, false, false);
  }

  lemma GetblkWaits(c: Cache, st: Store, p: nat, refuse: bool)
    requires Inv(c, st) && Enabled(c, Run(p, refuse, false)) && (c.procs[p].pc.Hashed? || c.procs[p].pc.Taking?)
    ensures PcOk(c.procs[p].pc, |c.hs|)
    ensures Advance(c, p, refuse, false).procs[p].pc == c.procs[p].pc <==> MustWait(c, c.procs[p].pc)
  {
    var pc := c.procs[p].pc;
    assert PcOk(pc, |c.hs|) && KeyOk(c, pc);
    hide Agrees, Unique, Locks, Counted, Find, Best, MoveToTail, Procs, Order;
    match pc
    case Hashed(_, _) =>
    case Taking(_, _) =>
  }

  lemma SyncWaits(c: Cache, st: Store, p: nat, refuse: bool)
    requires Inv(c, st) && Enabled(c, Run(p, refuse, false)) && c.procs[p].pc.Syncing?
    ensures PcOk(c.procs[p].pc, |c.hs|)
    ensures Advance(c, p, refuse, false).procs[p].pc == c.procs[p].pc <==> MustWait(c, c.procs[p].pc)
  {
    var pc := c.procs[p].pc;
    assert PcOk(pc, |c.hs|);
    hide Agrees, Unique, Locks, Procs, Holders, Order, Counted;
  }

  lemma IoWaits(c: Cache, st: Store, p: nat, refuse: bool)
    requires Inv(c, st) && Enabled(c, Run(p, refuse, false)) && !InGetblk(c.procs[p].pc)
    requires !c.procs[p].pc.Syncing?
    ensures PcOk(c.procs[p].pc, |c.hs|)
    ensures Advance(c, p, refuse, false).procs[p].pc == c.procs[p].pc <==> MustWait(c, c.procs[p].pc)
  {
    var pc := c.procs[p].pc;
    assert PcOk(pc, |c.hs|);
    if HeldAt(pc).Some? { HeldIsCounted(c, p, pc.b); }
    hide Agrees, Unique, Locks, Procs, Holders, Order;
    match pc
    case Locking(_, _) =>
    case Queueing(_, _) =>
    case Reading(_, _) =>
    case Releasing(_, _) =>
  }

  lemma WaitsExactly(c: Cache, st: Store, p: nat, refuse: bool)
    requires Inv(c, st) && Enabled(c, Run(p, refuse, false))
    ensures PcOk(c.procs[p].pc, |c.hs|)
    ensures Advance(c, p, refuse, false).procs[p].pc == c.procs[p].pc <==> MustWait(c, c.procs[p].pc)
  {
    hide Unique, Counted, Procs, Locks, Agrees, Advance, MustWait, Order;
    if c.procs[p].pc.Get? { LookupWaits(c, p, refuse); }
    else if InGetblk(c.procs[p].pc) { GetblkWaits(c, st, p, refuse); }
    else if c.procs[p].pc.Syncing? { SyncWaits(c, st, p, refuse); }
    else { IoWaits(c, st, p, refuse); }
  }
}
