/** What syncDev is for, and when a process waiting in getblk can go on. */
module BufferSync {
  import opened BufferModel
  import opened BufferCache
  import opened BufferCacheInv
  import opened BufferCacheRuns

  // ---------- syncDev ----------

  /** Of the first k buffers none is a dirty one of the device. */
  predicate Clean(c: Cache, dev: nat, k: nat) {
    forall b: nat | b < k && b < |c.hs| && c.hs[b].dev == dev :: !c.hs[b].dirt
  }

  /** What process p has looked at in its two passes is clean; the buffer it is writing is the last. */
  predicate Swept(c: Cache, p: nat)
    requires p < |c.procs| && |c.hs| > 0
  {
    match c.procs[p].pc
    case Syncing(dev, i, _) => Clean(c, dev, i)
    case Locking(b, ForSync(dev, i, _)) => i > 0 && b == (i - 1) % |c.hs| && Clean(c, dev, i - 1)
    case Queueing(b, ForSync(dev, i, _)) => i > 0 && b == (i - 1) % |c.hs| && Clean(c, dev, i - 1)
    case _ => true
  }

  /** Nobody stores into a buffer, and the device is not refused to p. */
  predicate Undisturbed(e: Event, p: nat) {
    !(e.Call? && e.op.Modify?) && !(e.Run? && e.p == p && e.refuse)
  }

  /** A buffer gets dirty by a store only, and then keeps its key until it is clean. */
  lemma DirtShrinks(c: Cache, e: Event, b: nat)
    requires Shape(c) && Enabled(c, e) && !(e.Call? && e.op.Modify?) && b < |c.hs|
    ensures Step(c, e).hs[b].dirt ==> c.hs[b].dirt && Step(c, e).hs[b].dev == c.hs[b].dev
  {
    hide Find, Best, MoveToTail;
    if e.Run? {
      match c.procs[e.p].pc
      case Get(q) =>
      case Hashed(q, b) =>
      case Taking(q, b) =>
      case Syncing(_, _, _) =>
      case Locking(_, _) =>
      case Queueing(_, _) =>
      case Reading(_, _) =>
      case Releasing(_, _) =>
    }
  }

  lemma CleanStays(c: Cache, e: Event, dev: nat, k: nat)
    requires Shape(c) && Enabled(c, e) && !(e.Call? && e.op.Modify?) && Clean(c, dev, k)
    ensures Clean(Step(c, e), dev, k)
  {
    hide Shape, Enabled, Step;
    forall b: nat | b < k && b < |c.hs| && Step(c, e).hs[b].dev == dev ensures !Step(c, e).hs[b].dirt {
      DirtShrinks(c, e, b);
    }
  }

  /** The buffer looked at is clean too: one more of the first pass, or one of those before. */
  lemma CleanMore(c: Cache, dev: nat, i: nat)
    requires |c.hs| > 0 && Clean(c, dev, i)
    requires var b := i % |c.hs|; c.hs[b].dev == dev ==> !c.hs[b].dirt
    ensures Clean(c, dev, i + 1)
  {
    assert i < |c.hs| ==> i % |c.hs| == i;
  }

  lemma OthersSweep(c: Cache, e: Event, p: nat)
    requires Shape(c) && Enabled(c, e) && Undisturbed(e, p) && p < |c.procs| && Swept(c, p)
    requires Step(c, e).procs[p].pc == c.procs[p].pc
    ensures Swept(Step(c, e), p)
  {
    hide Shape, Enabled, Step, Clean;
    match c.procs[p].pc
    case Syncing(dev, i, _) => CleanStays(c, e, dev, i);
    case Locking(_, ForSync(dev, i, _)) => if i > 0 { CleanStays(c, e, dev, i - 1); }
    case Queueing(_, ForSync(dev, i, _)) => if i > 0 { CleanStays(c, e, dev, i - 1); }
    case _ =>
  }

  /** p itself goes on. */
  lemma SyncingSweep(c: Cache, p: nat, full: bool)
    requires Shape(c) && Enabled(c, Run(p, false, full)) && Swept(c, p) && c.procs[p].pc.Syncing?
    ensures Swept(Advance(c, p, false, full), p)
  {
    hide Order, Clean;
    var e, pc := Run(p, false, full), c.procs[p].pc;
    var b := pc.i % |c.hs|;
    var looked := if c.hs[b].dev != pc.dev || !c.hs[b].dirt then pc.i + 1 else pc.i;
    if looked > pc.i { CleanMore(c, pc.dev, pc.i); }
    CleanStays(c, e, pc.dev, pc.i);
    CleanStays(c, e, pc.dev, looked);
  }

  lemma WritingSweep(c: Cache, p: nat, full: bool)
    requires Shape(c) && Enabled(c, Run(p, false, full)) && Swept(c, p)
    requires var pc := c.procs[p].pc; (pc.Locking? || pc.Queueing?) && pc.why.ForSync?
    ensures Swept(Advance(c, p, false, full), p)
  {
    hide Order, Clean;
    var e, pc := Run(p, false, full), c.procs[p].pc;
    CleanStays(c, e, pc.why.dev, pc.why.i - 1);
    if pc.Locking? {
      if !c.hs[pc.b].dirt {
        CleanMore(c, pc.why.dev, pc.why.i - 1);
        CleanStays(c, e, pc.why.dev, pc.why.i);
      }
    } else if !full {
      CleanMore(Advance(c, p, false, full), pc.why.dev, pc.why.i - 1);
    }
  }

  lemma OwnSweep(c: Cache, p: nat, full: bool)
    requires Shape(c) && Enabled(c, Run(p, false, full)) && Swept(c, p)
    ensures Swept(Advance(c, p, false, full), p)
  {
    hide Order, Find, Best, MoveToTail, Clean;
    match c.procs[p].pc
    case Syncing(_, _, _) => SyncingSweep(c, p, full);
    case Locking(_, why) => if why.ForSync? { WritingSweep(c, p, full); }
    case Queueing(_, why) => if why.ForSync? { WritingSweep(c, p, full); }
    case Taking(_, b) => CleanNone(Advance(c, p, false, full), c.hs[b].dev);
    case _ =>
  }

  lemma CleanNone(c: Cache, dev: nat)
    ensures Clean(c, dev, 0)
  {
  }

  lemma SweepStep(c: Cache, e: Event, p: nat)
    requires Shape(c) && Enabled(c, e) && Undisturbed(e, p) && p < |c.procs| && Swept(c, p)
    ensures Swept(Step(c, e), p)
  {
    hide Order, Advance, Clean;
    match e
    case Run(r, refuse, full) =>
      if r == p {
        OwnSweep(c, p, full);
      } else {
        SameRequest(c, r, refuse, full);
        OthersSweep(c, e, p);
      }
    case Call(r, op) =>
      if r == p {
        CleanNone(Step(c, e), if op.SyncDev? then op.dev else 0);
      } else {
        OthersSweep(c, e, p);
      }
    case Complete(_, _) => OthersSweep(c, e, p);
  }

  /** syncDev does its work, whatever other processes do meanwhile but store into buffers: when the
      two passes of p are over, no buffer of the device is dirty. */
  lemma {:induction false} SyncCleans(c: Cache, es: seq<Event>, p: nat)
    requires Possible(c, es) && p < |c.procs| && Swept(c, p)
    requires forall i | 0 <= i < |es| :: Undisturbed(es[i], p)
    ensures |Final(c, es).procs| == |c.procs| && Swept(Final(c, es), p)
    ensures var d := Final(c, es); var n := |d.hs|;
      d.procs[p].pc.Syncing? && d.procs[p].pc.i == 2 * n ==>
        forall b: nat | b < n && d.hs[b].dev == d.procs[p].pc.dev :: !d.hs[b].dirt
    decreases |es|
  {
    hide Shape, Step, Clean;
    if es == [] {
      var pc := c.procs[p].pc;
      if pc.Syncing? && pc.i == 2 * |c.hs| { AllClean(c, pc.dev, pc.i); }
    } else {
      SweepStep(c, es[0], p);
      SyncCleans(Step(c, es[0]), es[1..], p);
    }
  }

  lemma AllClean(c: Cache, dev: nat, k: nat)
    requires Clean(c, dev, k) && k >= |c.hs|
    ensures forall b: nat | b < |c.hs| && c.hs[b].dev == dev :: !c.hs[b].dirt
  {
  }

  /** Once the writes started have ended as well, the disk is what was stored, for the whole device. */
  lemma SyncedDisk(c: Cache, st: Store, dev: nat, block: nat)
    requires Inv(c, st) && dev != 0
    requires forall b: nat | b < |c.hs| && c.hs[b].dev == dev :: !c.hs[b].dirt && !(b in c.flight && c.flight[b].Write?)
    ensures At(c.disk, dev, block) == At(st, dev, block)
  {
    assert Settled(c, dev, block);
  }

  // ---------- the second pass ----------

  /** Of the first k buffers none of the device is dirty or being written. */
  predicate Written(c: Cache, dev: nat, k: int) {
    forall b: nat | b < k && b < |c.hs| && c.hs[b].dev == dev :: !Pending(c, b)
  }

  /** In the second pass p finds nothing left to write, and waits for what was being written. */
  predicate SweptTwice(c: Cache, p: nat)
    requires p < |c.procs| && |c.hs| > 0
  {
    match c.procs[p].pc
    case Syncing(dev, i, _) => Written(c, dev, i - |c.hs|)
    case Locking(_, ForSync(_, i, _)) => i <= |c.hs|
    case Queueing(_, ForSync(_, i, _)) => i <= |c.hs|
    case _ => true
  }

  /** Without stores nothing that is on disk has to be written again. */
  lemma PendingShrinks(c: Cache, st: Store, e: Event, b: nat)
    requires Inv(c, st) && Enabled(c, e) && !(e.Call? && e.op.Modify?) && b < |c.hs|
    ensures Pending(Step(c, e), b) ==> Pending(c, b) && Step(c, e).hs[b].dev == c.hs[b].dev
  {
    hide Agrees, Unique, Counted, Find, Best, MoveToTail;
    DirtShrinks(c, e, b);
    if e.Run? {
      assert LockOk(c, c.procs[e.p].pc);
      hide Procs;
      match c.procs[e.p].pc
      case Get(_) =>
      case Hashed(_, _) =>
      case Taking(_, _) =>
      case Syncing(_, _, _) =>
      case Locking(_, _) =>
      case Queueing(_, _) =>
      case Reading(_, _) =>
      case Releasing(_, _) =>
    }
  }

  lemma WrittenStays(c: Cache, st: Store, e: Event, dev: nat, k: int)
    requires Inv(c, st) && Enabled(c, e) && !(e.Call? && e.op.Modify?) && Written(c, dev, k)
    ensures Written(Step(c, e), dev, k)
  {
    hide Unique, Counted, Procs, Locks, Agrees, Order, Step, Pending;
    var c' := Step(c, e);
    forall b: nat | b < k && b < |c.hs| && c'.hs[b].dev == dev ensures !Pending(c', b) {
      PendingShrinks(c, st, e, b);
    }
  }

  /** One look of syncDev at a buffer. */
  lemma Look(c: Cache, p: nat, full: bool)
    requires Shape(c) && Enabled(c, Run(p, false, full))
    requires c.procs[p].pc.Syncing? && c.procs[p].pc.i < 2 * |c.hs|
    ensures var pc, c' := c.procs[p].pc, Advance(c, p, false, full); var b := pc.i % |c.hs|;
      && c'.hs == c.hs && c'.flight == c.flight
      && c'.procs[p].pc ==
           if c.hs[b].dev == pc.dev && c.hs[b].lock then pc
           else if c.hs[b].dev == pc.dev && c.hs[b].dirt then Locking(b, ForSync(pc.dev, pc.i + 1, pc.back))
           else Syncing(pc.dev, pc.i + 1, pc.back)
  {
    hide Order;
  }

  lemma SameWritten(c: Cache, c': Cache, dev: nat, k: int)
    requires c'.hs == c.hs && c'.flight == c.flight && Written(c, dev, k)
    ensures Written(c', dev, k)
  {
  }

  /** p itself goes on: it leaves a buffer of the second pass behind only unlocked. */
  lemma SecondPass(c: Cache, st: Store, p: nat, full: bool)
    requires Inv(c, st) && Enabled(c, Run(p, false, full)) && Swept(c, p) && SweptTwice(c, p)
    requires c.procs[p].pc.Syncing? && |c.hs| <= c.procs[p].pc.i < 2 * |c.hs|
    ensures SweptTwice(Advance(c, p, false, full), p)
  {
    hide Unique, Counted, Procs, Agrees, Order, Advance, Written;
    var pc, n, c' := c.procs[p].pc, |c.hs|, Advance(c, p, false, full);
    var b: nat := pc.i - n;
    Quotient(pc.i, n);
    assert c.hs[b].dev == pc.dev ==> !c.hs[b].dirt;
    assert !c.hs[b].lock ==> b !in c.flight;
    hide Locks, Clean;
    WrittenMore(c, pc.dev, b);
    Look(c, p, full);
    SameWritten(c, c', pc.dev, b);
    if !(c.hs[b].dev == pc.dev && c.hs[b].lock) { SameWritten(c, c', pc.dev, b + 1); }
  }

  lemma Quotient(i: nat, n: nat)
    requires n <= i < 2 * n
    ensures i % n == i - n
  {
  }

  lemma WrittenMore(c: Cache, dev: nat, k: nat)
    requires Written(c, dev, k) && k < |c.hs|
    ensures (c.hs[k].dev == dev ==> !Pending(c, k)) ==> Written(c, dev, k + 1)
  {
  }

  lemma FirstPass(c: Cache, p: nat, full: bool)
    requires Shape(c) && Enabled(c, Run(p, false, full)) && c.procs[p].pc.Syncing? && c.procs[p].pc.i < |c.hs|
    ensures SweptTwice(Advance(c, p, false, full), p)
  {
    hide Order, Written;
    NothingWritten(Advance(c, p, false, full), c.procs[p].pc.dev);
  }

  lemma OwnSweepTwice(c: Cache, st: Store, p: nat, full: bool)
    requires Inv(c, st) && Enabled(c, Run(p, false, full)) && Swept(c, p) && SweptTwice(c, p)
    ensures SweptTwice(Advance(c, p, false, full), p)
  {
    hide Unique, Counted, Procs, Locks, Agrees, Order, Advance, Swept, SweptTwice;
    var pc := c.procs[p].pc;
    assert PcOk(pc, |c.hs|);
    if pc.Syncing? && pc.i < 2 * |c.hs| {
      if pc.i < |c.hs| { FirstPass(c, p, full); } else { SecondPass(c, st, p, full); }
    } else {
      RestSweepsTwice(c, p, full);
    }
  }

  lemma RestSweepsTwice(c: Cache, p: nat, full: bool)
    requires Shape(c) && Enabled(c, Run(p, false, full)) && SweptTwice(c, p)
    requires var pc := c.procs[p].pc; pc.Syncing? ==> pc.i == 2 * |c.hs|
    ensures SweptTwice(Advance(c, p, false, full), p)
  {
    hide Order, Find, Best, MoveToTail, Written;
    var c' := Advance(c, p, false, full);
    if c'.procs[p].pc.Syncing? { NothingWritten(c', c'.procs[p].pc.dev); }
    match c.procs[p].pc
    case Locking(_, _) =>
    case Queueing(_, _) =>
    case _ =>
  }

  lemma SweepTwiceStep(c: Cache, st: Store, e: Event, p: nat)
    requires Inv(c, st) && Enabled(c, e) && Undisturbed(e, p) && p < |c.procs| && Swept(c, p) && SweptTwice(c, p)
    ensures SweptTwice(Step(c, e), p)
  {
    hide Order, Advance, Written, Unique, Counted, Procs, Locks, Agrees;
    match e
    case Run(r, refuse, full) =>
      if r == p {
        OwnSweepTwice(c, st, p, full);
      } else {
        SameRequest(c, r, refuse, full);
        OthersSweepTwice(c, st, e, p);
      }
    case Call(r, op) =>
      if r == p { NothingWritten(Step(c, e), if op.SyncDev? then op.dev else 0); }
      else { OthersSweepTwice(c, st, e, p); }
    case Complete(_, _) => OthersSweepTwice(c, st, e, p);
  }

  lemma NothingWritten(c: Cache, dev: nat)
    ensures forall k: int | k <= 0 :: Written(c, dev, k)
  {
  }

  lemma OthersSweepTwice(c: Cache, st: Store, e: Event, p: nat)
    requires Inv(c, st) && Enabled(c, e) && Undisturbed(e, p) && p < |c.procs| && SweptTwice(c, p)
    requires Step(c, e).procs[p].pc == c.procs[p].pc
    ensures SweptTwice(Step(c, e), p)
  {
    hide Inv, Enabled, Step, Written;
    if c.procs[p].pc.Syncing? { WrittenStays(c, st, e, c.procs[p].pc.dev, c.procs[p].pc.i - |c.hs|); }
  }

  /** Within a call of syncDev for the device. */
  predicate SyncsFor(pc: Pc, dev: nat) {
    match pc
    case Syncing(d, _, ToCaller) => d == dev
    case Locking(_, ForSync(d, _, ToCaller)) => d == dev
    case Queueing(_, ForSync(d, _, ToCaller)) => d == dev
    case _ => false
  }

  /** Not yet done, or done with nothing of the device left to write. */
  predicate SyncedBy(c: Cache, p: nat, dev: nat)
    requires p < |c.procs|
  {
    SyncsFor(c.procs[p].pc, dev) || (c.procs[p].pc.Idle? && Written(c, dev, |c.hs|))
  }

  lemma OwnSynced(c: Cache, st: Store, p: nat, dev: nat, full: bool)
    requires Inv(c, st) && Enabled(c, Run(p, false, full)) && SweptTwice(c, p) && SyncsFor(c.procs[p].pc, dev)
    ensures SyncedBy(Advance(c, p, false, full), p, dev)
  {
    hide Agrees, Unique, Counted, Procs, Order;
    match c.procs[p].pc
    case Syncing(_, i, _) => assert i == 2 * |c.hs| ==> Written(c, dev, |c.hs|);
    case Locking(_, _) =>
    case Queueing(_, _) =>
  }

  lemma SyncedStep(c: Cache, st: Store, e: Event, p: nat, dev: nat)
    requires Inv(c, st) && Enabled(c, e) && Undisturbed(e, p) && p < |c.procs| && SweptTwice(c, p)
    requires !(e.Call? && e.p == p) && SyncedBy(c, p, dev)
    ensures SyncedBy(Step(c, e), p, dev)
  {
    hide Order, Advance, Written, Unique, Counted, Procs, Locks, Agrees, SweptTwice;
    if e.Run? && e.p == p {
      OwnSynced(c, st, p, dev, e.full);
    } else {
      if e.Run? { SameRequest(c, e.p, e.refuse, e.full); }
      if c.procs[p].pc.Idle? { WrittenStays(c, st, e, dev, |c.hs|); }
    }
  }

  lemma {:induction false} SyncRun(c: Cache, st: Store, es: seq<Event>, p: nat, dev: nat)
    requires Inv(c, st) && Legal(c, es) && p < |c.procs| && Swept(c, p) && SweptTwice(c, p) && SyncedBy(c, p, dev)
    requires forall i | 0 <= i < |es| :: Undisturbed(es[i], p) && !(es[i].Call? && es[i].p == p)
    ensures var (c', st') := After(c, st, es); Inv(c', st') && |c'.procs| == |c.procs| && SyncedBy(c', p, dev)
    decreases |es|
  {
    hide Inv, Step, Sound, Enabled, Swept, SweptTwice, SyncedBy, Undisturbed;
    if es != [] {
      assert Undisturbed(es[0], p);
      ShapeOfInv(c, st);
      StepInv(c, st, es[0]);
      SweepStep(c, es[0], p);
      SweepTwiceStep(c, st, es[0], p);
      SyncedStep(c, st, es[0], p, dev);
      ShapeOfInv(Step(c, es[0]), Stored(c, st, es[0]));
      SyncRun(Step(c, es[0]), Stored(c, st, es[0]), es[1..], p, dev);
    }
  }

  lemma ShapeOfInv(c: Cache, st: Store)
    requires Inv(c, st)
    ensures Shape(c)
  {
  }

  /** syncDev(dev): when it has ended, and nobody has stored into a buffer since it was called, the disk
      holds what was stored, for every block of the device. */
  lemma SyncDelivers(c: Cache, st: Store, es: seq<Event>, p: nat, dev: nat, block: nat)
    requires Inv(c, st) && dev != 0 && Legal(c, [Call(p, SyncDev(dev))] + es)
    requires forall i | 0 <= i < |es| :: Undisturbed(es[i], p) && !(es[i].Call? && es[i].p == p)
    requires var c' := After(c, st, [Call(p, SyncDev(dev))] + es).0; p < |c'.procs| && c'.procs[p].pc.Idle?
    ensures var (c', st') := After(c, st, [Call(p, SyncDev(dev))] + es); At(c'.disk, dev, block) == At(st', dev, block)
  {
    var e := Call(p, SyncDev(dev));
    assert ([e] + es)[1..] == es && ([e] + es)[0] == e;
    StepInv(c, st, e);
    var c1 := Step(c, e);
    CleanNone(c1, dev);
    NothingWritten(c1, dev);
    SyncRun(c1, Stored(c, st, e), es, p, dev);
    var (c', st') := After(c, st, [e] + es);
    SyncedDisk(c', st', dev, block);
  }

  // ---------- a dirty victim ----------

  /** The victim a sync is for, and the device synced. */
  function VictimOf(pc: Pc): Option<nat> {
    match pc
    case Syncing(_, _, ToVictim(_, b)) => Some(b)
    case Locking(_, ForSync(_, _, ToVictim(_, b))) => Some(b)
    case Queueing(_, ForSync(_, _, ToVictim(_, b))) => Some(b)
    case _ => None
  }

  function DeviceOf(pc: Pc): nat {
    match pc
    case Syncing(dev, _, _) => dev
    case Locking(_, ForSync(dev, _, _)) => dev
    case Queueing(_, ForSync(dev, _, _)) => dev
    case _ => 0
  }

  /** The device that getblk has synced is that of its victim, for as long as the victim is dirty. */
  predicate ForVictim(c: Cache, pc: Pc) {
    var v := VictimOf(pc);
    v.Some? ==> v.value < |c.hs| && (c.hs[v.value].dirt ==> c.hs[v.value].dev == DeviceOf(pc))
  }

  lemma GetblkVictim(c: Cache, p: nat, refuse: bool, full: bool)
    requires Shape(c) && Enabled(c, Run(p, refuse, full)) && InGetblk(c.procs[p].pc)
    ensures var c' := Advance(c, p, refuse, full); ForVictim(c', c'.procs[p].pc)
  {
    hide Order, Find, Best, MoveToTail;
    match c.procs[p].pc
    case Get(_) =>
    case Hashed(_, _) =>
    case Taking(_, _) =>
  }

  /** A sync goes on for the victim it is for, and ends at it. */
  lemma SameVictim(c: Cache, p: nat, refuse: bool, full: bool)
    requires Shape(c) && Enabled(c, Run(p, refuse, full)) && !InGetblk(c.procs[p].pc)
    ensures var pc, pc' := c.procs[p].pc, Advance(c, p, refuse, full).procs[p].pc;
      VictimOf(pc').Some? ==> VictimOf(pc') == VictimOf(pc) && DeviceOf(pc') == DeviceOf(pc)
  {
    hide Order;
    match c.procs[p].pc
    case Syncing(_, _, _) =>
    case Locking(_, _) =>
    case Queueing(_, _) =>
    case Reading(_, _) =>
    case Releasing(_, _) =>
  }

  lemma VictimStep(c: Cache, e: Event, p: nat)
    requires Shape(c) && Enabled(c, e) && p < |c.procs| && !(e.Call? && e.op.Modify?) && ForVictim(c, c.procs[p].pc)
    ensures ForVictim(Step(c, e), Step(c, e).procs[p].pc)
  {
    hide Order, Find, Best, MoveToTail, Advance;
    var v := VictimOf(c.procs[p].pc);
    if v.Some? { DirtShrinks(c, e, v.value); }
    if e.Run? && e.p == p {
      if InGetblk(c.procs[p].pc) { GetblkVictim(c, p, e.refuse, e.full); } else { SameVictim(c, p, e.refuse, e.full); }
    } else if e.Run? {
      SameRequest(c, e.p, e.refuse, e.full);
      hide Shape, VictimOf, DeviceOf;
    } else {
      hide Shape, DeviceOf;
    }
  }

  /** getblk with a dirty victim has the victim's device synced, and finds it clean afterwards, unless
      somebody stores meanwhile or the device is refused. */
  lemma {:induction false} VictimCleaned(c: Cache, es: seq<Event>, p: nat)
    requires Possible(c, es) && p < |c.procs| && Swept(c, p) && ForVictim(c, c.procs[p].pc)
    requires forall i | 0 <= i < |es| :: Undisturbed(es[i], p)
    ensures var d := Final(c, es);
      && |d.procs| == |c.procs| && ForVictim(d, d.procs[p].pc)
      && (d.procs[p].pc.Syncing? && d.procs[p].pc.back.ToVictim? && d.procs[p].pc.i == 2 * |d.hs| ==>
            d.procs[p].pc.back.b < |d.hs| && !d.hs[d.procs[p].pc.back.b].dirt)
    decreases |es|
  {
    hide Shape, Step, Clean, Undisturbed, Swept, ForVictim;
    if es == [] {
      VictimClean(c, p);
    } else {
      assert Undisturbed(es[0], p);
      SweepStep(c, es[0], p);
      NoStore(es[0], p);
      VictimStep(c, es[0], p);
      VictimCleaned(Step(c, es[0]), es[1..], p);
    }
  }

  lemma NoStore(e: Event, p: nat)
    requires Undisturbed(e, p)
    ensures !(e.Call? && e.op.Modify?)
  {
  }

  lemma VictimClean(c: Cache, p: nat)
    requires Shape(c) && p < |c.procs| && Swept(c, p) && ForVictim(c, c.procs[p].pc)
    ensures var pc := c.procs[p].pc;
      pc.Syncing? && pc.back.ToVictim? && pc.i == 2 * |c.hs| ==> pc.back.b < |c.hs| && !c.hs[pc.back.b].dirt
  {
  }

  /** It does so: where getblk meets a dirty victim, a sync for that victim and its device begins. */
  lemma VictimSynced(c: Cache, p: nat, q: Req, b: nat)
    requires Shape(c) && p < |c.procs| && c.procs[p].pc == Taking(q, b) && !c.hs[b].lock && c.hs[b].dirt
    requires c.hs[b].count == 0
    ensures var c' := Advance(c, p, false, false);
      && VictimOf(c'.procs[p].pc) == Some(b) && ForVictim(c', c'.procs[p].pc) && Swept(c', p) && c'.hs == c.hs
  {
    CleanNone(c, c.hs[b].dev);
  }

  /** Then getblk comes back to it, and takes it if it is still free and the block still absent. */
  lemma VictimTaken(c: Cache, st: Store, p: nat, q: Req, dev: nat, b: nat)
    requires Inv(c, st) && p < |c.procs| && c.procs[p].pc == Syncing(dev, 2 * |c.hs|, ToVictim(q, b)) && !q.read
    requires !c.hs[b].lock && !c.hs[b].dirt && c.hs[b].count == 0 && !Present(c.hs, q.dev, q.block)
    ensures var c1 := Advance(c, p, false, false);
      && Shape(c1) && Enabled(c1, Run(p, false, false))
      && var c2 := Advance(c1, p, false, false);
         && c2.procs[p].pc.Idle? && c2.procs[p].got == Got(b) && c2.procs[p].held == c.procs[p].held + multiset{b}
         && c2.hs[b] == Header(q.dev, q.block, false, false, 1, false)
  {
    hide Agrees, Unique, Locks, Counted, Order, MoveToTail;
    assert KeyOk(c, c.procs[p].pc);
    hide Procs;
    ShapeKept(c, Run(p, false, false));
    FindsPresent(c.hs, q.dev, q.block);
    hide Find, Present;
  }

  // ---------- waiting for a buffer ----------

  /** A process at the start of getblk, or asleep for want of a buffer, goes on when it looks again
      exactly when the block is in the cache or some buffer is not held. */
  lemma GetGoesOn(c: Cache, p: nat)
    requires Shape(c) && p < |c.procs| && c.procs[p].pc.Get?
    ensures var q := c.procs[p].pc.q;
      !Advance(c, p, false, false).procs[p].pc.Get? <==>
        Present(c.hs, q.dev, q.block) || exists b: nat :: b < |c.hs| && c.hs[b].count == 0
  {
    hide Badness, Find;
    var q := c.procs[p].pc.q;
    BestIsBest(c.hs, c.order, |c.order|);
    FindsPresent(c.hs, q.dev, q.block);
    if b: nat :| b < |c.hs| && c.hs[b].count == 0 {
      assert b in c.order;
    }
  }

  lemma FindsPresent(hs: seq<Header>, dev: nat, block: nat)
    ensures Find(hs, dev, block, 0).Some? <==> Present(hs, dev, block)
  {
  }

  /** When the last holder releases a buffer, everyone waiting for one can go on. */
  lemma ReleaseHelps(c: Cache, st: Store, r: nat, p: nat)
    requires Inv(c, st) && r < |c.procs| && p < |c.procs| && p != r
    requires c.procs[r].pc.Releasing? && !c.hs[c.procs[r].pc.b].lock && Holders(c.procs, c.procs[r].pc.b) == 1
    requires c.procs[p].pc.Get?
    ensures var d := Advance(c, r, false, false);
      Shape(d) && d.procs[p].pc.Get? && !Advance(d, p, false, false).procs[p].pc.Get?
  {
    hide Find, Holders, Order;
    ShapeKept(c, Run(r, false, false));
    var b, d := c.procs[r].pc.b, Advance(c, r, false, false);
    assert d.hs[b].count == 0;
    GetGoesOn(d, p);
  }
}
