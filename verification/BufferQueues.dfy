/** fs/buffer.c as it runs: headers in one array of records, relinked in place. Each method leaves
    what the function of the same name in `BufferLists` says. */
module BufferQueues {
  import opened BufferModel
  import opened BufferLists

  class Buffers {
    const hdr: array<Node>
    const hash: array<nat>
    var freeList: nat

    ghost predicate Valid()
      reads this, hdr, hash
    {
      BufferLists.Sized(Q())
    }

    /** The state as a value. */
    ghost function Q(): Queues
      reads this, hdr, hash
    {
      Queues(hdr[..], freeList, hash[..])
    }

    // ---------- initBuffer ----------

    /** n headers, n > 0, in a ring in memory order, unkeyed and unheld; all chains empty. */
    constructor (n: nat)
      requires n > 0
      ensures Fresh(Q()) && Q().Nil() == n
      ensures forall k | 0 <= k < n :: Headers(Q())[k] == Header(0, 0, false, false, 0, false)
    {
      var nodes := new Node[n + 1](_ => Node(Header(0, 0, false, false, 0, false), 0, 0, 0, 0));
      var i := 0;
      while i < n
        invariant 0 <= i <= n
        invariant forall k: nat | k < i :: nodes[k].h == Header(0, 0, false, false, 0, false)
        invariant forall k: nat | k < i :: nodes[k].prev == n && nodes[k].next == n && nodes[k].nextFree == k + 1
        invariant forall k: nat | 0 < k < i :: nodes[k].prevFree == k - 1
      {
        nodes[i] := Node(Header(0, 0, false, false, 0, false), n, n, if i == 0 then 0 else i - 1, i + 1);
        i := i + 1;
      }
      nodes[0] := nodes[0].(prevFree := n - 1);
      nodes[n - 1] := nodes[n - 1].(nextFree := 0);
      hdr := nodes;
      freeList := 0;
      hash := new nat[NR_HASH](_ => n);
    }

    // ---------- reading ----------

    /** Walks one chain; finds a header for the block exactly when there is one anywhere. */
    method FindBuffer(dev: nat, block: nat, ghost order: seq<nat>, ghost chains: seq<seq<nat>>) returns (b: nat)
      requires Lists(Q(), order, chains)
      ensures b == Lookup(Q(), dev, block)
      ensures b <= Q().Nil() && (b == Q().Nil() <==> !Present(Headers(Q()), dev, block))
      ensures b < Q().Nil() ==> Keyed(Headers(Q())[b], dev, block)
    {
      hide FreeOk, Ring, Linked, Hash;
      var h, nil := Hash(dev, block), hdr.Length - 1;
      ghost var q, s, i := Q(), chains[h], 0;
      assert ChainOk(q, s, h, -1);
      NamesBound(s, nil);
      LookupOk(q, order, chains, dev, block);
      b := hash[h];
      while b != nil
        invariant 0 <= i <= |s| && b == (if i < |s| then s[i] else nil)
        invariant Walk(q, b, dev, block, nil - i) == Lookup(q, dev, block)
        decreases |s| - i
      {
        if hdr[b].h.dev == dev && hdr[b].h.block == block { return; }
        Neighbours(q, s, i);
        b := hdr[b].next;
        i := i + 1;
      }
    }

    /** The scan of getblk for a victim, with its early exit; hdr.Length - 1 stands for NULL. */
    method FindVictim(ghost order: seq<nat>, ghost chains: seq<seq<nat>>) returns (b: nat)
      requires Lists(Q(), order, chains)
      ensures match Best(Headers(Q()), order, |order|) case None => b == Q().Nil() case Some(v) => b == v
    {
      hide ChainOk, Ring, Linked, Badness;
      var nil := hdr.Length - 1;
      b := nil;
      var tmp := freeList;
      ghost var hs, i := Headers(Q()), 0;
      assert 0 in order;
      var more := true;
      while more
        invariant 0 <= i <= |order| && (more ==> i < |order| && tmp == order[i]) && (!more ==> i == |order|)
        invariant b == match Best(hs, order, i) case None => nil case Some(v) => v
        decreases |order| - i, more
      {
        if hdr[tmp].h.count == 0 && (b == nil || Badness(hdr[tmp].h) < Badness(hdr[b].h)) {
          b := tmp;
          if Badness(hdr[tmp].h) == 0 {
            BadnessOrder(hdr[tmp].h, hdr[tmp].h);
            BestStops(hs, order, i + 1, |order|);
            return;
          }
        }
        RingNeighbours(Q(), order, i);
        tmp := hdr[tmp].nextFree;
        i := i + 1;
        assert i < |order| ==> tmp == order[i] && order[0] != order[i];
        more := tmp != freeList;
      }
    }

    // ---------- one field ----------

    method SetPrev(b: nat, v: nat)
      requires b < hdr.Length
      modifies hdr
      ensures hdr[..] == BufferLists.SetPrev(old(hdr[..]), b, v)
    {
      hdr[b] := hdr[b].(prev := v);
    }

    method SetNext(b: nat, v: nat)
      requires b < hdr.Length
      modifies hdr
      ensures hdr[..] == BufferLists.SetNext(old(hdr[..]), b, v)
    {
      hdr[b] := hdr[b].(next := v);
    }

    method SetPrevFree(b: nat, v: nat)
      requires b < hdr.Length
      modifies hdr
      ensures hdr[..] == BufferLists.SetPrevFree(old(hdr[..]), b, v)
    {
      hdr[b] := hdr[b].(prevFree := v);
    }

    method SetNextFree(b: nat, v: nat)
      requires b < hdr.Length
      modifies hdr
      ensures hdr[..] == BufferLists.SetNextFree(old(hdr[..]), b, v)
    {
      hdr[b] := hdr[b].(nextFree := v);
    }

    // ---------- relinking ----------

    method RemoveFromQueues(b: nat)
      requires Valid() && b < Q().Nil()
      modifies this, hdr, hash
      ensures Valid() && Q() == Remove(old(Q()), b)
    {
      UnlinkHash(b);
      UnlinkFree(b);
    }

    method UnlinkHash(b: nat)
      requires Valid() && b < Q().Nil()
      modifies hdr, hash
      ensures Valid() && Q() == BufferLists.UnlinkHash(old(Q()), b)
    {
      var nil, node := hdr.Length - 1, hdr[b];
      assert node.next < hdr.Length && node.prev < hdr.Length && node == Q().t[b];
      hide BufferLists.Sized;
      if node.next != nil { SetPrev(node.next, node.prev); }
      if node.prev != nil { SetNext(node.prev, node.next); }
      var h := Hash(node.h.dev, node.h.block);
      if hash[h] == b { hash[h] := node.next; }
    }

    method UnlinkFree(b: nat)
      requires Valid() && b < Q().Nil()
      modifies this, hdr
      ensures Valid() && Q() == BufferLists.UnlinkFree(old(Q()), b)
    {
      SetNextFree(hdr[b].prevFree, hdr[b].nextFree);
      SetPrevFree(hdr[b].nextFree, hdr[b].prevFree);
      if freeList == b { freeList := hdr[b].nextFree; }
    }

    method InsertIntoQueues(b: nat)
      requires Valid() && b < Q().Nil()
      modifies hdr, hash
      ensures Valid() && Q() == Insert(old(Q()), b)
    {
      LinkFree(b);
      LinkHash(b);
    }

    method LinkFree(b: nat)
      requires Valid() && b < Q().Nil()
      modifies hdr
      ensures Valid() && Q() == BufferLists.LinkFree(old(Q()), b)
    {
      var last := hdr[freeList].prevFree;
      assert last < Q().Nil() && freeList < Q().Nil();
      hide BufferLists.Sized;
      SetNextFree(b, freeList);
      SetPrevFree(b, hdr[freeList].prevFree);
      SetNextFree(hdr[freeList].prevFree, b);
      SetPrevFree(freeList, b);
    }

    method LinkHash(b: nat)
      requires Valid() && b < Q().Nil()
      modifies hdr, hash
      ensures Valid() && Q() == BufferLists.LinkHash(old(Q()), b)
    {
      SetPrev(b, hdr.Length - 1);
      SetNext(b, hdr.Length - 1);
      if hdr[b].h.dev == 0 { return; }
      var h := Hash(hdr[b].h.dev, hdr[b].h.block);
      SetNext(b, hash[h]);
      hash[h] := b;
      SetPrev(hdr[b].next, b);
    }

    /** The end of getblk, after the last check. */
    method Commit(b: nat, dev: nat, block: nat)
      requires Valid() && b < Q().Nil()
      modifies this, hdr, hash
      ensures Valid() && Q() == Rekey(old(Q()), b, dev, block)
    {
      SetHeader(b, hdr[b].h.(count := 1, dirt := false, uptodate := false));
      RemoveFromQueues(b);
      SetHeader(b, hdr[b].h.(dev := dev % SHORT, block := block));
      InsertIntoQueues(b);
    }

    method SetHeader(b: nat, h: Header)
      requires Valid() && b < Q().Nil() && h.dev < SHORT
      modifies hdr
      ensures Valid() && Q() == WithHeader(old(Q()), b, h)
    {
      hdr[b] := hdr[b].(h := h);
    }
  }
}
