/** The invariant of the buffer cache over every interleaving, and the flat block store it refines. */
module BufferCacheInv {
  import opened BufferModel
  import opened BufferCache

  // ---------- holders ----------

  /** The buffer a program counter holds on top of those already returned to the process. */
  function HeldAt(pc: Pc): Option<nat> {
    match pc
    case Hashed(_, b) => Some(b)
    case Reading(_, b) => Some(b)
    case Releasing(b, _) => Some(b)
    case Locking(b, why) => if why.ForRead? then Some(b) else None
    case Queueing(b, why) => if why.ForRead? then Some(b) else None
    case _ => None
  }

  function HoldsOf(pr: Proc, b: nat): nat {
    pr.held[b] + (if HeldAt(pr.pc) == Some(b) then 1 else 0)
  }

  /** How often buffer b is held, over all processes. */
  function Holders(procs: seq<Proc>, b: nat): nat {
    if procs == [] then 0 else HoldsOf(procs[0], b) + Holders(procs[1..], b)
  }

  lemma {:induction false} HoldersUpdate(procs: seq<Proc>, p: nat, pr: Proc, b: nat)
    requires p < |procs|
    ensures Holders(procs, b) >= HoldsOf(procs[p], b)
    ensures Holders(procs[p := pr], b) == Holders(procs, b) - HoldsOf(procs[p], b) + HoldsOf(pr, b)
  {
    if p == 0 {
      assert procs[0 := pr][1..] == procs[1..];
    } else {
      assert procs[p := pr][1..] == procs[1..][p - 1 := pr];
      HoldersUpdate(procs[1..], p - 1, pr, b);
    }
  }

  // ---------- the invariant ----------

  /** b_count is the number of holders, and a byte is enough for it. */
  ghost predicate Counted(c: Cache) {
    forall b: nat | b < |c.hs| :: c.hs[b].count == Holders(c.procs, b) < BYTE
  }

  /** The request a program counter works for. */
  function ReqOf(pc: Pc): Option<Req> {
    match pc
    case Get(q) => Some(q)
    case Hashed(q, _) => Some(q)
    case Taking(q, _) => Some(q)
    case Reading(q, _) => Some(q)
    case Syncing(_, _, back) => if back.ToVictim? then Some(back.q) else None
    case Locking(_, why) => ReqFor(why)
    case Queueing(_, why) => ReqFor(why)
    case _ => None
  }

  function ReqFor(why: Why): Option<Req> {
    match why
    case ForRead(q) => Some(q)
    case ForSync(_, _, back) => if back.ToVictim? then Some(back.q) else None
  }

  /** A process that holds a buffer for its request holds the buffer of that block. */
  predicate KeyOk(c: Cache, pc: Pc)
    requires PcOk(pc, |c.hs|)
  {
    && (ReqOf(pc).Some? ==> ReqOf(pc).value.dev < SHORT)
    && (HeldAt(pc).Some? && ReqOf(pc).Some? ==>
          var h, q := c.hs[HeldAt(pc).value], ReqOf(pc).value; h.dev == q.dev && h.block == q.block)
  }

  /** A lock belongs to one process in makeRequest or to one request under way, and the flags say
      which way the data are to go. */
  predicate LockOk(c: Cache, pc: Pc)
    requires PcOk(pc, |c.hs|)
  {
    pc.Queueing? ==>
      && c.hs[pc.b].lock && pc.b !in c.flight
      && (if pc.why.ForRead? then !c.hs[pc.b].uptodate else c.hs[pc.b].dirt)
  }

  ghost predicate Locks(c: Cache)
    requires Shape(c)
  {
    && (forall b | b in c.flight :: c.hs[b].lock && !c.hs[b].dirt && (c.flight[b].Write? <==> c.hs[b].uptodate))
    && (forall b: nat | b < |c.hs| && c.hs[b].dirt :: c.hs[b].uptodate)
    && (forall p, r | 0 <= p < r < |c.procs| && c.procs[p].pc.Queueing? && c.procs[r].pc.Queueing? ::
          c.procs[p].pc.b != c.procs[r].pc.b)
  }

  /** Data of the block that are newer than the disk, or on their way there. */
  predicate Pending(c: Cache, b: nat)
    requires b < |c.hs|
  {
    c.hs[b].dirt || (b in c.flight && c.flight[b].Write?)
  }

  ghost predicate Settled(c: Cache, dev: nat, block: nat) {
    forall b: nat | b < |c.hs| && Keyed(c.hs[b], dev, block) :: !Pending(c, b)
  }

  /** `st` is the flat store: an up-to-date buffer agrees with it, and so does the disk wherever no
      buffer has newer data. */
  ghost predicate Agrees(c: Cache, st: Store)
    requires |c.data| == |c.hs|
  {
    && (forall b: nat | b < |c.hs| && c.hs[b].dev != 0 && c.hs[b].uptodate ::
          c.data[b] == At(st, c.hs[b].dev, c.hs[b].block))
    && (forall dev: nat, block: nat | dev != 0 && Settled(c, dev, block) ::
          At(c.disk, dev, block) == At(st, dev, block))
  }

  ghost predicate Procs(c: Cache)
    requires Shape(c)
  {
    forall p | 0 <= p < |c.procs| :: KeyOk(c, c.procs[p].pc) && LockOk(c, c.procs[p].pc)
  }

  ghost predicate Inv(c: Cache, st: Store) {
    Shape(c) && Unique(c.hs) && Counted(c) && Procs(c) && Locks(c) && Agrees(c, st)
  }

  /** What the callers and the device must keep to: device numbers of sixteen bits, fewer than 256
      holders of one buffer, and no failed write. */
  predicate Sound(c: Cache, e: Event)
    requires Shape(c) && Enabled(c, e)
  {
    match e
    case Call(_, GetBlk(dev, _)) => dev < SHORT
    case Call(_, BRead(dev, _)) => dev < SHORT
    case Complete(b, ok) => c.flight[b].Write? ==> ok
    case Run(p, _, _) =>
      var pc := c.procs[p].pc;
      pc.Get? && Find(c.hs, pc.q.dev, pc.q.block, 0).Some? ==>
        c.hs[Find(c.hs, pc.q.dev, pc.q.block, 0).value].count < BYTE - 1
    case _ => true
  }

  /** The flat store after an event: only stores by holders change it. */
  function Stored(c: Cache, st: Store, e: Event): Store
    requires Shape(c) && Enabled(c, e)
  {
    if e.Call? && e.op.Modify? then st[(c.hs[e.op.b].dev, c.hs[e.op.b].block) := e.op.d] else st
  }

  /** Nothing newer is forgotten, nothing becomes up to date: the flat store is still right. */
  lemma AgreesKept(c: Cache, c': Cache, st: Store)
    requires |c.data| == |c.hs| == |c'.hs| && c'.data == c.data && c'.disk == c.disk && Agrees(c, st)
    requires forall a: nat | a < |c.hs| :: c'.hs[a].dev == c.hs[a].dev && c'.hs[a].block == c.hs[a].block
               && (c'.hs[a].uptodate ==> c.hs[a].uptodate) && (Pending(c, a) ==> Pending(c', a))
    ensures Agrees(c', st)
  {
    forall dev: nat, block: nat | dev != 0 && Settled(c', dev, block)
      ensures At(c'.disk, dev, block) == At(st, dev, block)
    {
      forall a: nat | a < |c.hs| && Keyed(c.hs[a], dev, block) ensures !Pending(c, a) {
        assert Keyed(c'.hs[a], dev, block) && !Pending(c', a);
      }
      assert Settled(c, dev, block);
    }
  }

  // ---------- only the program counter changes ----------

  lemma MovePc(c: Cache, st: Store, p: nat, pc: Pc)
    requires Inv(c, st) && p < |c.procs| && PcOk(pc, |c.hs|) && KeyOk(c, pc) && !pc.Queueing?
    requires HeldAt(pc) == HeldAt(c.procs[p].pc)
    ensures Inv(WithPc(c, p, pc), st)
  {
    var c' := WithPc(c, p, pc);
    forall b: nat | b < |c.hs| ensures Holders(c'.procs, b) == Holders(c.procs, b) {
      HoldersUpdate(c.procs, p, c'.procs[p], b);
    }
    forall r | 0 <= r < |c.procs| ensures KeyOk(c', c'.procs[r].pc) && LockOk(c', c'.procs[r].pc) {}
    AgreesKept(c, c', st);
  }

  // ---------- counts ----------

  /** getHashTable found the buffer and counts itself in. */
  lemma Grab(c: Cache, st: Store, p: nat, b: nat)
    requires Inv(c, st) && p < |c.procs| && c.procs[p].pc.Get? && b < |c.hs|
    requires var q := c.procs[p].pc.q; Keyed(c.hs[b], q.dev, q.block) && c.hs[b].count < BYTE - 1
    ensures var q, h := c.procs[p].pc.q, c.hs[b];
      Inv(WithPc(WithHead(c, b, h.(count := (h.count + 1) % BYTE)), p, Hashed(q, b)), st)
  {
    hide Agrees, Locks, Unique, Find, Holders;
    var q, h := c.procs[p].pc.q, c.hs[b];
    var c1 := WithHead(c, b, h.(count := (h.count + 1) % BYTE));
    var c' := WithPc(c1, p, Hashed(q, b));
    forall a: nat | a < |c.hs| ensures c'.hs[a].count == Holders(c'.procs, a) < BYTE {
      HoldersUpdate(c.procs, p, c'.procs[p], a);
    }
    SameButCount(c, c', st, b);
    assert KeyOk(c, c.procs[p].pc);
    forall r | 0 <= r < |c.procs| ensures KeyOk(c', c'.procs[r].pc) && LockOk(c', c'.procs[r].pc) {
      assert KeyOk(c, c.procs[r].pc) && LockOk(c, c.procs[r].pc);
    }
  }

  /** Only a count and program counters differ: keys, locks and contents are as good as before. */
  lemma SameButCount(c: Cache, c': Cache, st: Store, b: nat)
    requires Inv(c, st) && b < |c.hs| && |c'.hs| == |c.hs| && c'.hs == c.hs[b := c.hs[b].(count := c'.hs[b].count)]
    requires c'.data == c.data && c'.order == c.order && c'.disk == c.disk && c'.flight == c.flight && Shape(c')
    requires |c'.procs| == |c.procs|
    requires forall r | 0 <= r < |c.procs| && c'.procs[r].pc.Queueing? :: c'.procs[r].pc == c.procs[r].pc
    ensures Unique(c'.hs) && Locks(c') && Agrees(c', st)
  {
    AgreesKept(c, c', st);
  }

  /** A process moves a buffer it holds into its hands, or out of them. */
  lemma Handed(c: Cache, st: Store, p: nat, pr: Proc)
    requires Inv(c, st) && p < |c.procs| && PcOk(pr.pc, |c.hs|) && KeyOk(c, pr.pc) && !pr.pc.Queueing?
    requires forall b | b in pr.held :: b < |c.hs|
    requires forall b: nat | b < |c.hs| :: HoldsOf(pr, b) == HoldsOf(c.procs[p], b)
    ensures Inv(c.(procs := c.procs[p := pr]), st)
  {
    var c' := c.(procs := c.procs[p := pr]);
    forall b: nat | b < |c.hs| ensures Holders(c'.procs, b) == Holders(c.procs, b) {
      HoldersUpdate(c.procs, p, pr, b);
    }
    SameButCount(c, c', st, 0);
    forall r | 0 <= r < |c.procs| ensures KeyOk(c', c'.procs[r].pc) && LockOk(c', c'.procs[r].pc) {
      assert KeyOk(c, c.procs[r].pc) && LockOk(c, c.procs[r].pc);
    }
  }

  /** brelse counts its process out. */
  lemma Release(c: Cache, st: Store, p: nat, got: Result)
    requires Inv(c, st) && p < |c.procs| && c.procs[p].pc.Releasing?
    ensures var b := c.procs[p].pc.b;
      && c.hs[b].count > 0
      && var c1 := WithHead(c, b, c.hs[b].(count := c.hs[b].count - 1));
         Inv(c1.(procs := c1.procs[p := c1.procs[p].(pc := Idle, got := got)]), st)
  {
    hide Agrees, Locks, Unique, Holders;
    var b := c.procs[p].pc.b;
    var pr := c.procs[p].(pc := Idle, got := got);
    HoldersUpdate(c.procs, p, pr, b);
    var c1 := WithHead(c, b, c.hs[b].(count := c.hs[b].count - 1));
    var c' := c1.(procs := c1.procs[p := pr]);
    forall a: nat | a < |c.hs| ensures c'.hs[a].count == Holders(c'.procs, a) < BYTE {
      HoldersUpdate(c.procs, p, pr, a);
    }
    SameButCount(c, c', st, b);
    forall r | 0 <= r < |c.procs| ensures KeyOk(c', c'.procs[r].pc) && LockOk(c', c'.procs[r].pc) {
      assert KeyOk(c, c.procs[r].pc) && LockOk(c, c.procs[r].pc);
    }
  }

  // ---------- locks and transfers ----------

  /** makeRequest takes the lock. */
  lemma TakeLock(c: Cache, st: Store, p: nat)
    requires Inv(c, st) && p < |c.procs| && c.procs[p].pc.Locking? && !c.hs[c.procs[p].pc.b].lock
    requires var pc := c.procs[p].pc; if pc.why.ForRead? then !c.hs[pc.b].uptodate else c.hs[pc.b].dirt
    ensures var pc := c.procs[p].pc;
      Inv(WithPc(WithHead(c, pc.b, c.hs[pc.b].(lock := true)), p, Queueing(pc.b, pc.why)), st)
  {
    hide Agrees, Holders, At;
    var pc := c.procs[p].pc;
    var b := pc.b;
    var c1 := WithHead(c, b, c.hs[b].(lock := true));
    var c' := WithPc(c1, p, Queueing(b, pc.why));
    forall a: nat | a < |c.hs| ensures c'.hs[a].count == Holders(c'.procs, a) < BYTE {
      HoldersUpdate(c.procs, p, c'.procs[p], a);
    }
    forall r | 0 <= r < |c.procs| ensures KeyOk(c', c'.procs[r].pc) && LockOk(c', c'.procs[r].pc) {
      assert KeyOk(c, c.procs[r].pc) && LockOk(c, c.procs[r].pc);
    }
    assert forall r | 0 <= r < |c.procs| :: c.procs[r].pc.Queueing? ==> LockOk(c, c.procs[r].pc);
    AgreesKept(c, c', st);
  }

  /** The cache once p has started its request. */
  function Started(c: Cache, p: nat): Cache
    requires Shape(c) && p < |c.procs| && c.procs[p].pc.Queueing?
  {
    var pc := c.procs[p].pc;
    var c1 := WithHead(c, pc.b, c.hs[pc.b].(dirt := false));
    var c2 := c1.(flight := c1.flight[pc.b := if pc.why.ForRead? then Read else Write]);
    WithPc(c2, p, AfterIo(pc.b, pc.why))
  }

  lemma StartProcs(c: Cache, st: Store, p: nat)
    requires Inv(c, st) && p < |c.procs| && c.procs[p].pc.Queueing?
    ensures Shape(Started(c, p)) && Counted(Started(c, p)) && Procs(Started(c, p))
  {
    hide Agrees, Holders, At, Unique, Order;
    var pc := c.procs[p].pc;
    assert LockOk(c, pc) && KeyOk(c, pc);
    var c' := Started(c, p);
    forall a: nat | a < |c.hs| ensures c'.hs[a].count == Holders(c'.procs, a) < BYTE {
      HoldersUpdate(c.procs, p, c'.procs[p], a);
    }
    forall r | 0 <= r < |c.procs| ensures KeyOk(c', c'.procs[r].pc) && LockOk(c', c'.procs[r].pc) {
      assert KeyOk(c, c.procs[r].pc) && LockOk(c, c.procs[r].pc);
      if r != p && c.procs[r].pc.Queueing? { assert c.procs[r].pc.b != pc.b; }
    }
  }

  /** addRequest: the request is under way and b_dirt is cleared. */
  lemma StartRequest(c: Cache, st: Store, p: nat)
    requires Inv(c, st) && p < |c.procs| && c.procs[p].pc.Queueing?
    ensures Inv(Started(c, p), st)
  {
    hide Agrees, Holders, At, Order, Counted, KeyOk;
    var pc := c.procs[p].pc;
    assert LockOk(c, pc);
    StartProcs(c, st, p);
    AgreesKept(c, Started(c, p), st);
  }

  /** The device finishes a request; a WRITE must succeed. */
  lemma Finish(c: Cache, st: Store, b: nat, ok: bool)
    requires Inv(c, st) && b in c.flight && (c.flight[b].Write? ==> ok)
    ensures Inv(Step(c, Complete(b, ok)), st)
  {
    hide Agrees;
    var c' := Step(c, Complete(b, ok));
    forall r | 0 <= r < |c.procs| ensures KeyOk(c', c'.procs[r].pc) && LockOk(c', c'.procs[r].pc) {
      assert KeyOk(c, c.procs[r].pc) && LockOk(c, c.procs[r].pc);
    }
    FinishAgrees(c, st, b, ok);
  }

  lemma FinishAgrees(c: Cache, st: Store, b: nat, ok: bool)
    requires Inv(c, st) && b in c.flight && (c.flight[b].Write? ==> ok)
    ensures Agrees(Step(c, Complete(b, ok)), st)
  {
    hide Counted, Procs, Order;
    var c' := Step(c, Complete(b, ok));
    var h := c.hs[b];
    if c.flight[b].Read? && h.dev != 0 {
      forall a: nat | a < |c.hs| && Keyed(c.hs[a], h.dev, h.block) ensures !Pending(c, a) { assert a == b; }
      assert Settled(c, h.dev, h.block);
    }
    forall dev: nat, block: nat | dev != 0 && Settled(c', dev, block)
      ensures At(c'.disk, dev, block) == At(st, dev, block)
    {
      if !(c.flight[b].Write? && h.dev == dev && h.block == block) {
        forall a: nat | a < |c.hs| && Keyed(c.hs[a], dev, block) ensures !Pending(c, a) {
          assert Keyed(c'.hs[a], dev, block) && !Pending(c', a);
        }
        assert Settled(c, dev, block);
      }
    }
  }

  // ---------- stores ----------

  /** A holder changes its buffer, and the flat store changes with it. */
  lemma Modified(c: Cache, st: Store, p: nat, b: nat, d: Data)
    requires Inv(c, st) && Enabled(c, Call(p, Modify(b, d)))
    ensures Inv(Step(c, Call(p, Modify(b, d))), Stored(c, st, Call(p, Modify(b, d))))
  {
    hide Agrees, Order;
    var e := Call(p, Modify(b, d));
    var c' := Step(c, e);
    forall r | 0 <= r < |c.procs| ensures KeyOk(c', c'.procs[r].pc) && LockOk(c', c'.procs[r].pc) {
      assert KeyOk(c, c.procs[r].pc) && LockOk(c, c.procs[r].pc);
    }
    ModifiedAgrees(c, st, p, b, d);
  }

  lemma ModifiedAgrees(c: Cache, st: Store, p: nat, b: nat, d: Data)
    requires Inv(c, st) && Enabled(c, Call(p, Modify(b, d)))
    ensures Agrees(Step(c, Call(p, Modify(b, d))), Stored(c, st, Call(p, Modify(b, d))))
  {
    hide Counted, Procs, Order;
    var e := Call(p, Modify(b, d));
    var c', st' := Step(c, e), Stored(c, st, e);
    forall a: nat | a < |c.hs| && c'.hs[a].dev != 0 && c'.hs[a].uptodate
      ensures c'.data[a] == At(st', c'.hs[a].dev, c'.hs[a].block)
    {
    }
    forall dev: nat, block: nat | dev != 0 && Settled(c', dev, block)
      ensures At(c'.disk, dev, block) == At(st', dev, block)
    {
      assert Pending(c', b);
      assert !Keyed(c'.hs[b], dev, block);
      forall a: nat | a < |c.hs| && Keyed(c.hs[a], dev, block) ensures !Pending(c, a) {
        assert Keyed(c'.hs[a], dev, block) && !Pending(c', a);
      }
      assert Settled(c, dev, block);
    }
  }

  // ---------- the commit of getblk ----------

  /** The victim is unheld, clean and unlocked, and no buffer has the key wanted: becoming the
      buffer of that key loses no data, drops no holder and makes no second buffer for a block. */
  lemma Commits(c: Cache, st: Store, p: nat, pr: Proc)
    requires Inv(c, st) && p < |c.procs| && c.procs[p].pc.Taking?
    requires var q, b := c.procs[p].pc.q, c.procs[p].pc.b;
      && !c.hs[b].lock && c.hs[b].count == 0 && !c.hs[b].dirt && Find(c.hs, q.dev, q.block, 0).None?
      && PcOk(pr.pc, |c.hs|) && !pr.pc.Queueing?
      && (ReqOf(pr.pc).Some? ==> ReqOf(pr.pc).value == q) && (HeldAt(pr.pc).Some? ==> HeldAt(pr.pc).value == b)
      && (forall a | a in pr.held :: a < |c.hs|)
      && (forall a: nat | a < |c.hs| :: HoldsOf(pr, a) == HoldsOf(c.procs[p], a) + if a == b then 1 else 0)
    ensures var q, b := c.procs[p].pc.q, c.procs[p].pc.b; var c1 := Commit(c, q, b);
      Inv(c1.(procs := c1.procs[p := pr]), st)
  {
    hide Agrees, Find, Holders, MoveToTail, At;
    var q, b := c.procs[p].pc.q, c.procs[p].pc.b;
    var c1 := Commit(c, q, b);
    var c' := c1.(procs := c1.procs[p := pr]);
    assert KeyOk(c, c.procs[p].pc);
    MoveKeepsOrder(c.order, |c.hs|, b);
    forall a: nat | a < |c.hs| ensures c'.hs[a].count == Holders(c'.procs, a) < BYTE {
      HoldersUpdate(c.procs, p, pr, a);
    }
    forall r | 0 <= r < |c.procs| ensures KeyOk(c', c'.procs[r].pc) && LockOk(c', c'.procs[r].pc) {
      assert KeyOk(c, c.procs[r].pc) && LockOk(c, c.procs[r].pc);
      HoldersUpdate(c.procs, r, pr, b);
    }
    forall a | 0 <= a < |c.hs| ensures !Keyed(c.hs[a], q.dev, q.block) {}
    CommitAgrees(c, c', st, b, q);
  }

  lemma CommitAgrees(c: Cache, c': Cache, st: Store, b: nat, q: Req)
    requires |c.data| == |c.hs| == |c'.hs| && Agrees(c, st) && b < |c.hs| && b !in c.flight && !c.hs[b].dirt
    requires forall a | 0 <= a < |c.hs| :: !Keyed(c.hs[a], q.dev, q.block)
    requires c'.hs == c.hs[b := Header(q.dev, q.block, false, false, 1, false)]
    requires c'.data == c.data && c'.disk == c.disk && c'.flight == c.flight
    ensures Agrees(c', st)
  {
    forall dev: nat, block: nat | dev != 0 && Settled(c', dev, block)
      ensures At(c'.disk, dev, block) == At(st, dev, block)
    {
      forall a: nat | a < |c.hs| && Keyed(c.hs[a], dev, block) ensures !Pending(c, a) {
        if a != b { assert Keyed(c'.hs[a], dev, block) && !Pending(c', a); }
      }
      assert Settled(c, dev, block);
    }
  }

  // ---------- one event ----------

  /** getblk has its buffer, held by the process at `pc`. */
  lemma Obtains(c: Cache, st: Store, p: nat, b: nat, q: Req, refuse: bool)
    requires Inv(c, st) && p < |c.procs| && c.procs[p].pc == Hashed(q, b)
    ensures Inv(Obtained(c, p, q, b, refuse), st)
  {
    var pc := c.procs[p].pc;
    assert KeyOk(c, pc);
    if !q.read || c.hs[b].uptodate {
      Handed(c, st, p, Proc(c.procs[p].held + multiset{b}, Idle, Got(b)));
    } else {
      MovePc(c, st, p, if refuse then Reading(q, b) else Locking(b, ForRead(q)));
    }
  }

  lemma CommitStep(c: Cache, st: Store, p: nat, refuse: bool)
    requires Inv(c, st) && p < |c.procs| && c.procs[p].pc.Taking?
    requires var q, b := c.procs[p].pc.q, c.procs[p].pc.b;
      !c.hs[b].lock && c.hs[b].count == 0 && !c.hs[b].dirt && Find(c.hs, q.dev, q.block, 0).None?
    ensures var q, b := c.procs[p].pc.q, c.procs[p].pc.b; Inv(Obtained(Commit(c, q, b), p, q, b, refuse), st)
  {
    var q, b := c.procs[p].pc.q, c.procs[p].pc.b;
    var pr := if !q.read then Proc(c.procs[p].held + multiset{b}, Idle, Got(b))
              else c.procs[p].(pc := if refuse then Reading(q, b) else Locking(b, ForRead(q)));
    Commits(c, st, p, pr);
  }

  predicate InGetblk(pc: Pc) { pc.Get? || pc.Hashed? || pc.Taking? }

  lemma GetblkAdvances(c: Cache, st: Store, p: nat, refuse: bool, full: bool)
    requires Inv(c, st) && Enabled(c, Run(p, refuse, full)) && Sound(c, Run(p, refuse, full))
    requires InGetblk(c.procs[p].pc)
    ensures Inv(Advance(c, p, refuse, full), st)
  {
    hide Agrees, Unique, Counted, Locks, Find, Best, MoveToTail;
    var pc := c.procs[p].pc;
    assert KeyOk(c, pc) && LockOk(c, pc);
    hide Procs;
    match pc
    case Get(q) =>
      var f, v := Find(c.hs, q.dev, q.block, 0), Best(c.hs, c.order, |c.order|);
      if f.Some? { Grab(c, st, p, f.value); }
      else if v.Some? { MovePc(c, st, p, Taking(q, v.value)); }
    case Hashed(q, b) =>
      if !c.hs[b].lock { Obtains(c, st, p, b, q, refuse); }
    case Taking(q, b) =>
      if !c.hs[b].lock {
        if c.hs[b].count != 0 || Find(c.hs, q.dev, q.block, 0).Some? { MovePc(c, st, p, Get(q)); }
        if c.hs[b].count == 0 {
          if c.hs[b].dirt { MovePc(c, st, p, Syncing(c.hs[b].dev, 0, ToVictim(q, b))); }
          else if Find(c.hs, q.dev, q.block, 0).None? { CommitStep(c, st, p, refuse); }
        }
      }
  }

  lemma IoAdvances(c: Cache, st: Store, p: nat, refuse: bool, full: bool)
    requires Inv(c, st) && Enabled(c, Run(p, refuse, full)) && Sound(c, Run(p, refuse, full))
    requires !InGetblk(c.procs[p].pc)
    ensures Inv(Advance(c, p, refuse, full), st)
  {
    hide Agrees, Unique, Counted, Locks, Find, Best, MoveToTail;
    var pc := c.procs[p].pc;
    assert KeyOk(c, pc) && LockOk(c, pc);
    hide Procs;
    match pc
    case Syncing(dev, i, back) =>
      if i == 2 * |c.hs| {
        MovePc(c, st, p, match back case ToVictim(q, b) => Taking(q, b) case ToCaller => Idle);
      } else {
        MovePc(c, st, p, Syncing(dev, i + 1, back));
        MovePc(c, st, p, Locking(i % |c.hs|, ForSync(dev, i + 1, back)));
      }
    case Locking(b, why) =>
      if !c.hs[b].lock {
        if (if why.ForRead? then c.hs[b].uptodate else !c.hs[b].dirt) { MovePc(c, st, p, AfterIo(b, why)); }
        else { TakeLock(c, st, p); }
      }
    case Queueing(b, why) =>
      if !full { StartRequest(c, st, p); }
    case Reading(q, b) =>
      if !c.hs[b].lock {
        if c.hs[b].uptodate { Handed(c, st, p, Proc(c.procs[p].held + multiset{b}, Idle, Got(b))); }
        else { MovePc(c, st, p, Releasing(b, true)); }
      }
    case Releasing(b, failed) =>
      if !c.hs[b].lock { Release(c, st, p, if failed then Failed else Nothing); }
  }

  /** A process goes on. */
  lemma Advances(c: Cache, st: Store, p: nat, refuse: bool, full: bool)
    requires Inv(c, st) && Enabled(c, Run(p, refuse, full)) && Sound(c, Run(p, refuse, full))
    ensures Inv(Advance(c, p, refuse, full), st)
  {
    hide Inv, Advance, Sound;
    if InGetblk(c.procs[p].pc) { GetblkAdvances(c, st, p, refuse, full); }
    else { IoAdvances(c, st, p, refuse, full); }
  }

  /** A process calls. */
  lemma Calls(c: Cache, st: Store, p: nat, op: Op)
    requires Inv(c, st) && Enabled(c, Call(p, op)) && Sound(c, Call(p, op))
    ensures Inv(Step(c, Call(p, op)), Stored(c, st, Call(p, op)))
  {
    hide Agrees, Unique, Counted, Locks;
    match op
    case GetBlk(dev, block) => MovePc(c, st, p, Get(Req(dev, block, false)));
    case BRead(dev, block) => MovePc(c, st, p, Get(Req(dev, block, true)));
    case BRelse(b) => Handed(c, st, p, c.procs[p].(held := c.procs[p].held - multiset{b}, pc := Releasing(b, false)));
    case SyncDev(dev) => MovePc(c, st, p, Syncing(dev, 0, ToCaller));
    case Modify(b, d) => Modified(c, st, p, b, d);
  }

  lemma StepInv(c: Cache, st: Store, e: Event)
    requires Inv(c, st) && Enabled(c, e) && Sound(c, e)
    ensures Inv(Step(c, e), Stored(c, st, e))
  {
    match e
    case Call(p, op) => Calls(c, st, p, op);
    case Run(p, refuse, full) => Advances(c, st, p, refuse, full);
    case Complete(b, ok) => Finish(c, st, b, ok);
  }
}
