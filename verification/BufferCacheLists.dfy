/** The linked lists of fs/buffer.c over every run of the cache: what the code has built is always
    right, the walk of a chain finds what a scan of all headers would, and the free list is in the
    order of assignment. */
module BufferCacheLists {
  import opened BufferModel
  import opened BufferCache
  import opened BufferCacheInv
  import opened BufferCacheRuns
  import opened BufferLists

  // ---------- one event ----------

  /** The lists in memory represent the cache. */
  ghost predicate Represents(u: Queues, chains: seq<seq<nat>>, c: Cache) {
    Lists(u, c.order, chains) && Headers(u) == c.hs
  }

  /** What happens to the lists: a commit relinks, everything else touches header fields only. */
  ghost function Relink(u: Queues, c: Cache, e: Event): Queues
    requires Shape(c) && Enabled(c, e) && Sized(u) && u.Nil() == |c.hs|
  {
    if Committing(c, e) then Rekey(u, c.procs[e.p].pc.b, c.procs[e.p].pc.q.dev, c.procs[e.p].pc.q.block)
    else WithHeaders(u, Step(c, e).hs)
  }

  /** Every event can be carried out on the linked lists, and they represent the cache afterwards. */
  lemma ListsStep(u: Queues, chains: seq<seq<nat>>, c: Cache, e: Event)
    requires Shape(c) && Enabled(c, e) && Represents(u, chains, c)
    ensures exists chains' :: Represents(Relink(u, c, e), chains', Step(c, e))
  {
    hide Lists, Rekey, Sized;
    SizedFor(u, chains, c);
    var v, c' := Relink(u, c, e), Step(c, e);
    if Committing(c, e) {
      var b, q := c.procs[e.p].pc.b, c.procs[e.p].pc.q;
      RekeyOk(u, c.order, chains, b, q.dev, q.block);
      assert c'.hs == Commit(c, q, b).hs && c'.order == MoveToTail(c.order, b);
      var chains' :| Lists(v, MoveToTail(c.order, b), chains');
      assert Represents(v, chains', c');
    } else {
      KeysKept(c, e);
      WithHeadersOk(u, c.order, chains, c'.hs);
      assert Represents(v, chains, c');
    }
  }

  lemma SizedFor(u: Queues, chains: seq<seq<nat>>, c: Cache)
    requires Represents(u, chains, c)
    ensures Sized(u) && u.Nil() == |c.hs| && forall b | 0 <= b < |c.hs| :: u.t[b].h == c.hs[b]
  {
  }

  /** Lists u, in some division into chains, represent the cache. */
  ghost predicate Listed(u: Queues, c: Cache) {
    exists chains :: Represents(u, chains, c)
  }

  lemma ListedBy(u: Queues, chains: seq<seq<nat>>, c: Cache)
    requires Represents(u, chains, c)
    ensures Listed(u, c)
  {
  }

  lemma ListedSized(u: Queues, c: Cache)
    requires Listed(u, c)
    ensures Sized(u) && u.Nil() == |c.hs| && Headers(u) == c.hs
  {
    var chains :| Represents(u, chains, c);
  }

  lemma ListedStep(u: Queues, c: Cache, e: Event)
    requires Shape(c) && Enabled(c, e) && Listed(u, c)
    ensures Sized(u) && u.Nil() == |c.hs| && Listed(Relink(u, c, e), Step(c, e))
  {
    hide Step, Represents, Relink;
    ListedSized(u, c);
    var chains :| Represents(u, chains, c);
    ListsStep(u, chains, c, e);
  }

  // ---------- runs ----------

  /** A run on which no device number goes wrong, so that no block ever has two headers. Only then
      does the cache, which looks a block up by number, take the header that the code finds first. */
  ghost predicate Proper(c: Cache, es: seq<Event>) {
    Possible(c, es) && Unique(c.hs) && AsksNarrow(c) && forall i | 0 <= i < |es| :: CallsNarrow(es[i])
  }

  lemma ProperTail(c: Cache, es: seq<Event>)
    requires Proper(c, es) && es != []
    ensures Proper(Step(c, es[0]), es[1..])
  {
    hide Step, Unique, AsksNarrow, CallsNarrow, Shape;
    AsksKept(c, es[0]);
    UniqueStep(c, es[0]);
    assert forall i | 0 <= i < |es| - 1 :: es[1..][i] == es[i + 1];
  }

  /** Every run that keeps to `Sound` is one. */
  lemma {:induction false} SoundIsProper(c: Cache, es: seq<Event>)
    requires Legal(c, es)
    ensures forall i | 0 <= i < |es| :: CallsNarrow(es[i])
    decreases |es|
  {
    hide Step, Shape, Enabled;
    if es != [] {
      SoundIsProper(Step(c, es[0]), es[1..]);
      forall i | 0 <= i < |es| ensures CallsNarrow(es[i]) {
        assert i > 0 ==> es[i] == es[1..][i - 1];
      }
    }
  }

  /** The lists after a run, each event carried out on those the one before it left. */
  ghost function Relinked(u: Queues, c: Cache, es: seq<Event>): Queues
    requires Possible(c, es) && Listed(u, c)
    decreases |es|
  {
    if es == [] then u
    else
      ListedStep(u, c, es[0]);
      Relinked(Relink(u, c, es[0]), Step(c, es[0]), es[1..])
  }

  /** The lists of initBuffer are right. */
  lemma InitialListed(u: Queues, c: Cache)
    requires Initial(c) && Fresh(u) && Sized(u) && Headers(u) == c.hs
    requires forall i | 0 <= i < |c.order| :: c.order[i] == i
    ensures Listed(u, c)
  {
    NamesBound(c.order, |c.hs|);
    var k: nat := |c.order|;
    assert k < |c.hs| ==> k in c.order;
    var chains: seq<seq<nat>> := seq(NR_HASH, h => []);
    FreshOk(u, c.order, chains);
    ListedBy(u, chains, c);
  }

  // ---------- looking up ----------

  /** The walk of one chain finds what a scan of all headers finds. */
  lemma LookupAgrees(u: Queues, c: Cache, dev: nat, block: nat)
    requires Listed(u, c) && Unique(c.hs)
    ensures Sized(u) && Lookup(u, dev, block) == match Find(c.hs, dev, block, 0) case None => |c.hs| case Some(b) => b
  {
    hide Lookup;
    var chains :| Represents(u, chains, c);
    LookupOk(u, c.order, chains, dev, block);
    ListedSized(u, c);
    var r := Lookup(u, dev, block);
    assert r < |c.hs| ==> Keyed(c.hs[r], dev, block);
  }

  // ---------- what a run leaves ----------

  lemma {:induction false} ListsKept(u: Queues, c: Cache, es: seq<Event>)
    requires Possible(c, es) && Listed(u, c)
    ensures Listed(Relinked(u, c, es), Final(c, es))
    decreases |es|
  {
    hide Listed, Step, Relink;
    if es != [] {
      ListedStep(u, c, es[0]);
      ListsKept(Relink(u, c, es[0]), Step(c, es[0]), es[1..]);
    }
  }

  /** Over every run the lists that the code keeps are right: the free list is one ring of all the
      headers, every chain holds exactly the headers of its hash, and every lookup finds on them what
      the cache finds. */
  lemma RunLists(u: Queues, c: Cache, es: seq<Event>)
    requires Proper(c, es) && Listed(u, c)
    ensures var u', c' := Relinked(u, c, es), Final(c, es);
      && Listed(u', c') && Unique(c'.hs) && Sized(u')
      && forall dev, block ::
           Lookup(u', dev, block) == match Find(c'.hs, dev, block, 0) case None => |c'.hs| case Some(b) => b
  {
    hide Listed, Relinked, Final, Lookup, Find, Possible, AsksNarrow;
    ListsKept(u, c, es);
    UniqueRuns(c, es);
    var u', c' := Relinked(u, c, es), Final(c, es);
    ListedSized(u', c');
    forall dev, block
      ensures Lookup(u', dev, block) == match Find(c'.hs, dev, block, 0) case None => |c'.hs| case Some(b) => b
    {
      LookupAgrees(u', c', dev, block);
    }
  }

  /** From initBuffer on, over every run, findBuffer returns a header exactly when that header stands
      for the block: there is no second one, and no chain hides one. */
  lemma FoundIsUnique(u: Queues, c: Cache, es: seq<Event>, dev: nat, block: nat, b: nat)
    requires Initial(c) && Listed(u, c) && Legal(c, es) && Possible(c, es) && b < |c.hs|
    ensures var c' := Final(c, es); var u' := Relinked(u, c, es);
      Sized(u') && (Lookup(u', dev, block) == b <==> Keyed(c'.hs[b], dev, block))
  {
    hide Lookup, Listed, Relinked, Final;
    SoundIsProper(c, es);
    assert Unique(c.hs) && AsksNarrow(c);
    RunLists(u, c, es);
    assert Lookup(Relinked(u, c, es), dev, block)
        == match Find(Final(c, es).hs, dev, block, 0) case None => |c.hs| case Some(k) => k;
  }

  // ---------- the age of buffers ----------

  /** The buffers assigned during a run, in order. */
  ghost function Committed(c: Cache, es: seq<Event>): (bs: seq<nat>)
    requires Possible(c, es)
    ensures forall i | 0 <= i < |bs| :: bs[i] < |c.hs|
    decreases |es|
  {
    if es == [] then []
    else (if Committing(c, es[0]) then [c.procs[es[0].p].pc.b] else []) + Committed(Step(c, es[0]), es[1..])
  }

  /** The free list of a running cache is what the assignments made of it. */
  lemma {:induction false} RunOrder(c: Cache, es: seq<Event>)
    requires Proper(c, es)
    ensures Final(c, es).order == Moves(c.order, |c.hs|, Committed(c, es))
    decreases |es|
  {
    hide Order, Moves, MoveToTail, Unique, AsksNarrow, CallsNarrow;
    if es == [] {
      NoMoves(c.order, |c.hs|);
    } else {
      var e, c1 := es[0], Step(c, es[0]);
      ProperTail(c, es);
      RunOrder(c1, es[1..]);
      if Committing(c, e) {
        MovesFirst(c.order, |c.hs|, c.procs[e.p].pc.b, Committed(c1, es[1..]));
        CommitOrder(c, e);
      } else {
        KeysKept(c, e);
        assert [] + Committed(c1, es[1..]) == Committed(c1, es[1..]);
      }
    }
  }

  lemma NoMoves(order: seq<nat>, n: nat)
    requires Order(order, n)
    ensures Moves(order, n, []) == order
  {
  }

  lemma CommitOrder(c: Cache, e: Event)
    requires Shape(c) && Enabled(c, e) && Committing(c, e)
    ensures Step(c, e).order == MoveToTail(c.order, c.procs[e.p].pc.b)
  {
    hide MoveToTail, Find;
  }

  /** Whatever has happened, the victim of getblk is unheld, no worse than any other unheld buffer,
      and among equally good ones the one assigned longest ago; those never assigned come first, in
      the order of the start. */
  lemma VictimIsOldest(c: Cache, es: seq<Event>, p: nat, v: nat, w: nat)
    requires Proper(c, es)
    requires var d := Final(c, es); var e := Run(p, false, false);
      Enabled(d, e) && d.procs[p].pc.Get? && Step(d, e).procs[p].pc == Taking(d.procs[p].pc.q, v)
    requires w < |c.hs| && w != v && Final(c, es).hs[w].count == 0
    ensures var hs, bs := Final(c, es).hs, Committed(c, es);
      && v < |hs| && hs[v].count == 0 && NoWorse(hs[v], hs[w])
      && (AsGood(hs[v], hs[w]) ==>
            LastTime(bs, v) < LastTime(bs, w) || (LastTime(bs, v) == LastTime(bs, w) && Before(c.order, v, w)))
  {
    hide Final, Committed, LastTime, Find;
    var d, bs := Final(c, es), Committed(c, es);
    RunOrder(c, es);
    assert Best(d.hs, d.order, |d.order|) == Some(v);
    BestIsBest(d.hs, d.order, |d.order|);
    assert d.order[IndexOf(d.order, w)] == w;
    if AsGood(d.hs[v], d.hs[w]) { OldestFirst(d.hs, c.order, bs, v, w); }
  }
}
