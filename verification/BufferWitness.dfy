/** Runs from initBuffer on which fs/buffer.c goes wrong, one for each condition of
    `BufferCacheRuns`. */
module BufferWitness {
  import opened BufferModel
  import opened BufferCache
  import opened BufferCacheInv
  import opened BufferCacheRuns
  import opened BufferLists

  // ---------- reaching a state ----------

  /** d is what some run leaves from c on. */
  ghost predicate Reached(c: Cache, d: Cache) {
    exists es :: Possible(c, es) && Final(c, es) == d
  }

  lemma {:induction false} OneMore(c: Cache, es: seq<Event>, e: Event)
    requires Possible(c, es) && Enabled(Final(c, es), e)
    ensures Possible(c, es + [e]) && Final(c, es + [e]) == Step(Final(c, es), e)
    decreases |es|
  {
    hide Shape, Enabled, Step;
    if es == [] {
      assert [] + [e] == [e] && [e][1..] == [];
      ShapeKept(c, e);
    } else {
      OneMore(Step(c, es[0]), es[1..], e);
      assert (es + [e])[1..] == es[1..] + [e];
    }
  }

  lemma ReachedStep(c: Cache, d: Cache, e: Event)
    requires Reached(c, d) && Shape(d) && Enabled(d, e)
    ensures Reached(c, Step(d, e)) && Shape(Step(d, e))
  {
    hide Shape, Enabled, Step;
    var es :| Possible(c, es) && Final(c, es) == d;
    OneMore(c, es, e);
    ShapeKept(d, e);
  }

  lemma InMemoryOrder(order: seq<nat>, n: nat)
    requires |order| == n && forall i | 0 <= i < n :: order[i] == i
    ensures Order(order, n)
  {
    forall b: nat | b < n ensures b in order { assert order[b] == b; }
  }

  /** initBuffer with n buffers and one process. */
  function Boot(n: nat): (c: Cache)
    requires n > 0
    ensures Initial(c) && |c.hs| == n && |c.procs| == 1
  {
    var order: seq<nat> := seq(n, i requires 0 <= i < n => i);
    InMemoryOrder(order, n);
    var none := Header(0, 0, false, false, 0, false);
    var hs, data := seq(n, i requires 0 <= i < n => none), seq(n, i requires 0 <= i < n => []);
    assert forall b | 0 <= b < n :: hs[b] == none;
    Cache(hs, data, order, map[], map[], [Proc(multiset{}, Idle, Nothing)])
  }

  lemma BootReached(n: nat)
    requires n > 0
    ensures Reached(Boot(n), Boot(n)) && Shape(Boot(n))
  {
    assert Possible(Boot(n), []) && Final(Boot(n), []) == Boot(n);
  }

  // ---------- getblk, when nobody else is about ----------

  /** A lookup that finds nothing, and the choice of a victim. */
  lemma Choose(c: Cache, d: Cache, q: Req, b: nat)
    requires Reached(c, d) && Shape(d) && |d.procs| == 1 && d.procs[0].pc.Idle?
    requires Find(d.hs, q.dev, q.block, 0).None? && Best(d.hs, d.order, |d.order|) == Some(b)
    ensures var r := WithPc(d, 0, Taking(q, b)); Reached(c, r) && Shape(r)
  {
    hide Order, Find, Best, MoveToTail, Reached;
    var call := Call(0, if q.read then BRead(q.dev, q.block) else GetBlk(q.dev, q.block));
    var d1 := WithPc(d, 0, Get(q));
    ReachedStep(c, d, call);
    assert q == Req(q.dev, q.block, q.read) && Step(d, call) == d1;
    ReachedStep(c, d1, Run(0, false, false));
    assert Step(d1, Run(0, false, false)) == WithPc(d, 0, Taking(q, b));
  }

  /** A clean free victim is committed. */
  lemma Acquire(c: Cache, d: Cache, q: Req, b: nat)
    requires Reached(c, d) && Shape(d) && |d.procs| == 1 && d.procs[0].pc.Idle? && !q.read
    requires Find(d.hs, q.dev, q.block, 0).None? && Best(d.hs, d.order, |d.order|) == Some(b)
    requires b < |d.hs| && !d.hs[b].lock && !d.hs[b].dirt && d.hs[b].count == 0
    ensures var r := Return(Commit(d, q, b), 0, b); Reached(c, r) && Shape(r)
  {
    hide Order, Find, Best, MoveToTail, Reached;
    Choose(c, d, q, b);
    var d2 := WithPc(d, 0, Taking(q, b));
    ReachedStep(c, d2, Run(0, false, false));
    assert Step(d2, Run(0, false, false)) == Return(Commit(d, q, b), 0, b);
  }

  /** A lookup that finds an unlocked buffer. */
  lemma HoldAgain(c: Cache, d: Cache, q: Req, b: nat)
    requires Reached(c, d) && Shape(d) && |d.procs| == 1 && d.procs[0].pc.Idle? && !q.read
    requires Find(d.hs, q.dev, q.block, 0) == Some(b) && !d.hs[b].lock
    ensures var r := Return(WithHead(d, b, d.hs[b].(count := (d.hs[b].count + 1) % BYTE)), 0, b);
      Reached(c, r) && Shape(r)
  {
    hide Order, Find, Best, MoveToTail, Reached;
    var d1 := WithPc(d, 0, Get(q));
    ReachedStep(c, d, Call(0, GetBlk(q.dev, q.block)));
    assert q == Req(q.dev, q.block, false);
    var d2 := WithPc(WithHead(d, b, d.hs[b].(count := (d.hs[b].count + 1) % BYTE)), 0, Hashed(q, b));
    ReachedStep(c, d1, Run(0, false, false));
    assert Step(d1, Run(0, false, false)) == d2;
    ReachedStep(c, d2, Run(0, false, false));
    assert Step(d2, Run(0, false, false))
        == Return(WithHead(d, b, d.hs[b].(count := (d.hs[b].count + 1) % BYTE)), 0, b);
  }

  // ---------- device numbers of more than 16 bits ----------

  /** Two calls of getblk for one block of such a device return two buffers; unless the number
      truncates to 0, both headers stand for the same block, of another device. */
  lemma TwoBuffers(dev: nat, block: nat) returns (d: Cache)
    requires dev >= SHORT
    ensures Reached(Boot(2), d) && |d.procs| == 1 && |d.hs| == 2 && d.procs[0].held == multiset{0, 1}
    ensures forall b | 0 <= b < 2 :: d.hs[b].dev == dev % SHORT && d.hs[b].block == block && d.hs[b].count == 1
    ensures dev % SHORT != 0 ==> !Unique(d.hs)
  {
    hide Reached;
    var c, q := Boot(2), Req(dev, block, false);
    BootReached(2);
    FirstBest(c.hs, c.order);
    assert c.order[0] == 0 && c.order[1] == 1;
    Acquire(c, c, q, 0);
    var c1 := Return(Commit(c, q, 0), 0, 0);
    assert IndexOf(c.order, 0) == 0;
    assert c1.order == [1, 0];
    FirstBest(c1.hs, c1.order);
    Acquire(c, c1, q, 1);
    d := Return(Commit(c1, q, 1), 0, 1);
    assert d.hs[0].dev == d.hs[1].dev && d.hs[0].block == d.hs[1].block;
  }

  /** A clean free buffer at the head of the list is the victim. */
  lemma FirstBest(hs: seq<Header>, order: seq<nat>)
    requires order != [] && forall i | 0 <= i < |order| :: order[i] < |hs|
    requires hs[order[0]].count == 0 && !hs[order[0]].dirt && !hs[order[0]].lock
    ensures Best(hs, order, |order|) == Some(order[0])
  {
    assert Best(hs, order, 0) == None;
    assert Best(hs, order, 1) == Some(order[0]);
    BestStops(hs, order, 1, |order|);
  }

  // ---------- 256 holders ----------

  /** Block 1 of device 1, held n times by one process. */
  function Many(n: nat): Cache {
    Cache([Header(1, 1, false, false, n % BYTE, false)], [[]], [0], map[], map[],
          [Proc(multiset{}[0 := n], Idle, Got(0))])
  }

  lemma OneReached()
    ensures Reached(Boot(1), Many(1)) && Shape(Many(1))
  {
    hide Reached;
    var c, q := Boot(1), Req(1, 1, false);
    BootReached(1);
    assert c.order[0] == 0;
    FirstBest(c.hs, c.order);
    Acquire(c, c, q, 0);
    var r := Return(Commit(c, q, 0), 0, 0);
    assert IndexOf(c.order, 0) == 0;
    assert r.order == [0] && r.hs == Many(1).hs && r.data == [[]];
    assert r.procs[0].held == Many(1).procs[0].held;
    assert r == Many(1);
  }

  lemma {:induction false} ManyReached(n: nat)
    requires n > 0
    ensures Reached(Boot(1), Many(n)) && Shape(Many(n))
  {
    hide Reached;
    if n == 1 {
      OneReached();
    } else {
      var d := Many(n - 1);
      ManyReached(n - 1);
      HoldAgain(Boot(1), d, Req(1, 1, false), 0);
      var r := Return(WithHead(d, 0, d.hs[0].(count := (d.hs[0].count + 1) % BYTE)), 0, 0);
      assert r.procs[0].held == Many(n).procs[0].held;
      assert r == Many(n);
    }
  }

  /** The 256th hold of a buffer: its count says that it is free, and getblk would take it. */
  lemma HoldersWrap()
    ensures var d := Many(256);
      && Reached(Boot(1), d) && Holders(d.procs, 0) == 256
      && d.hs[0].count == 0 && Best(d.hs, d.order, |d.order|) == Some(0)
  {
    ManyReached(256);
    var d := Many(256);
    assert d.procs[1..] == [];
    assert HoldsOf(d.procs[0], 0) == 256;
    FirstBest(d.hs, d.order);
  }

  // ---------- a write that fails ----------

  /** Block 1 of device 1 was read. */
  function HaveRead(): Cache {
    Cache([Header(1, 1, true, false, 1, false)], [[]], [0], map[], map[], [Proc(multiset{0}, Idle, Got(0))])
  }

  function InRead(h: Header, flight: map<nat, Rw>, pc: Pc): Cache {
    Cache([h], [[]], [0], map[], flight, [Proc(multiset{}, pc, Nothing)])
  }

  /** bread has its buffer and is about to lock it. */
  lemma ReadCommitted()
    ensures var d := InRead(Header(1, 1, false, false, 1, false), map[], Locking(0, ForRead(Req(1, 1, true))));
      Reached(Boot(1), d) && Shape(d)
  {
    hide Reached, Order, Shape;
    var c, q, none := Boot(1), Req(1, 1, true), Header(0, 0, false, false, 0, false);
    BootReached(1);
    assert c.order[0] == 0 && c == InRead(none, map[], Idle);
    FirstBest(c.hs, c.order);
    Choose(c, c, q, 0);
    var d := InRead(none, map[], Taking(q, 0));
    assert WithPc(c, 0, Taking(q, 0)) == d;
    ReachedStep(c, d, Run(0, false, false));
    assert IndexOf([0], 0) == 0;
    assert Step(d, Run(0, false, false))
        == InRead(Header(1, 1, false, false, 1, false), map[], Locking(0, ForRead(q)));
  }

  /** It waits for the device. */
  lemma ReadAsked()
    ensures var d := InRead(Header(1, 1, false, false, 1, true), map[0 := Read], Reading(Req(1, 1, true), 0));
      Reached(Boot(1), d) && Shape(d)
  {
    hide Reached, Order, Shape;
    var c, q, run, h := Boot(1), Req(1, 1, true), Run(0, false, false), Header(1, 1, false, false, 1, true);
    ReadCommitted();
    var d := InRead(h.(lock := false), map[], Locking(0, ForRead(q)));
    ReachedStep(c, d, run);
    var d1 := InRead(h, map[], Queueing(0, ForRead(q)));
    assert Step(d, run) == d1;
    ReachedStep(c, d1, run);
    assert Step(d1, run) == InRead(h, map[0 := Read], Reading(q, 0));
  }

  lemma ReadDone()
    ensures Reached(Boot(1), HaveRead()) && Shape(HaveRead())
  {
    hide Reached, Order, Shape;
    var c, q, run := Boot(1), Req(1, 1, true), Run(0, false, false);
    var h := Header(1, 1, false, false, 1, true);
    var d := InRead(h, map[0 := Read], Reading(q, 0));
    ReadAsked();
    ReachedStep(c, d, Complete(0, true));
    var d1 := InRead(h.(uptodate := true, lock := false), map[], Reading(q, 0));
    assert d.flight - {0} == map[];
    assert Step(d, Complete(0, true)) == d1;
    ReachedStep(c, d1, run);
    assert multiset{} + multiset{0} == multiset{0};
    assert Step(d1, run) == HaveRead();
  }

  function InWrite(data: Data, h: Header, flight: map<nat, Rw>, pc: Pc): Cache {
    Cache([h], [data], [0], map[], flight, [Proc(multiset{0}, pc, Got(0))])
  }

  /** A holder stores data and syncDev writes them, up to the point where the device has them. */
  lemma WriteAsked(data: Data)
    ensures var d := InWrite(data, Header(1, 1, true, false, 1, true), map[0 := Write], Syncing(1, 1, ToCaller));
      Reached(Boot(1), d) && Shape(d)
  {
    hide Reached, Order, Shape;
    var c, run := Boot(1), Run(0, false, false);
    var h, why := Header(1, 1, true, true, 1, false), ForSync(1, 1, ToCaller);
    ReadDone();
    var d0 := HaveRead();
    ReachedStep(c, d0, Call(0, Modify(0, data)));
    var d1 := InWrite(data, h, map[], Idle);
    assert Step(d0, Call(0, Modify(0, data))) == d1;
    ReachedStep(c, d1, Call(0, SyncDev(1)));
    var d2 := InWrite(data, h, map[], Syncing(1, 0, ToCaller));
    assert Step(d1, Call(0, SyncDev(1))) == d2;
    ReachedStep(c, d2, run);
    var d3 := InWrite(data, h, map[], Locking(0, why));
    assert Step(d2, run) == d3;
    ReachedStep(c, d3, run);
    var d4 := InWrite(data, h.(lock := true), map[], Queueing(0, why));
    assert Step(d3, run) == d4;
    ReachedStep(c, d4, run);
    assert Step(d4, run) == InWrite(data, h.(dirt := false, lock := true), map[0 := Write], Syncing(1, 1, ToCaller));
  }

  /** The device refuses: the data stored are neither on disk nor waiting to be written, so the cache
      no longer agrees with what was stored, unless that is what the disk held all along. */
  lemma DataLost(data: Data) returns (d: Cache)
    ensures Reached(Boot(1), d) && !Pending(d, 0) && !d.hs[0].uptodate && At(d.disk, 1, 1) == []
    ensures Agrees(d, map[(1, 1) := data]) <==> data == []
  {
    hide Reached;
    WriteAsked(data);
    var d0 := InWrite(data, Header(1, 1, true, false, 1, true), map[0 := Write], Syncing(1, 1, ToCaller));
    ReachedStep(Boot(1), d0, Complete(0, false));
    d := Step(d0, Complete(0, false));
    assert Settled(d, 1, 1);
    assert forall dev, block | (dev, block) != (1, 1) :: At(map[(1, 1) := data], dev, block) == [];
  }

  // ---------- the store through NULL ----------

  /** After initBuffer every chain is empty, so that the first buffer assigned to a device makes the
      store through NULL happen. */
  lemma FirstInsert(u: Queues, b: nat, dev: nat, block: nat)
    requires Fresh(u) && Sized(u) && b < u.Nil() && dev % SHORT != 0
    ensures Rekey(u, b, dev, block).t[u.Nil()] == u.t[u.Nil()].(prev := b)
  {
    hide Hash, Insert;
    var q1 := WithHeader(u, b, u.t[b].h.(count := 1, dirt := false, uptodate := false));
    assert u.t[b] == FirstNode(b, u.Nil()).(h := u.t[b].h);
    var q2 := Remove(q1, b);
    assert q2.t[u.Nil()] == u.t[u.Nil()] && q2.hash == u.hash;
    var q3 := WithHeader(q2, b, q2.t[b].h.(dev := dev % SHORT, block := block));
    NullStore(q3, b);
  }
}
