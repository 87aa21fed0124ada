/** The free list and the hash chains of fs/buffer.c as values. Headers are numbered by their place
    in memory; the number one past the last stands for NULL, so that the node with that number is
    what the kernel finds at address 0. */
module BufferLists {
  import opened BufferModel

  datatype Node = Node(h: Header, prev: nat, next: nat, prevFree: nat, nextFree: nat)

  /** All headers and the node at NULL, BUFFER_FREE_LIST and BUFFER_HASH_TABLE. */
  datatype Queues = Queues(t: seq<Node>, free: nat, hash: seq<nat>) {
    function Nil(): int { |t| - 1 }
    function HashOf(b: nat): nat
      requires b < |t|
    {
      Hash(t[b].h.dev, t[b].h.block)
    }
  }

  /** Every link leads to a header or to NULL, and the free list never to NULL. */
  predicate Sized(q: Queues) {
    && |q.t| >= 2 && |q.hash| == NR_HASH && q.free < q.Nil()
    && (forall k | 0 <= k < |q.hash| :: q.hash[k] <= q.Nil())
    && (forall b | 0 <= b < q.Nil() :: q.t[b].prev <= q.Nil() && q.t[b].next <= q.Nil()
          && q.t[b].prevFree < q.Nil() && q.t[b].nextFree < q.Nil() && q.t[b].h.dev < SHORT)
  }

  // ---------- the code ----------

  function SetPrev(t: seq<Node>, b: nat, v: nat): seq<Node> requires b < |t| { t[b := t[b].(prev := v)] }
  function SetNext(t: seq<Node>, b: nat, v: nat): seq<Node> requires b < |t| { t[b := t[b].(next := v)] }
  function SetPrevFree(t: seq<Node>, b: nat, v: nat): seq<Node> requires b < |t| { t[b := t[b].(prevFree := v)] }
  function SetNextFree(t: seq<Node>, b: nat, v: nat): seq<Node> requires b < |t| { t[b := t[b].(nextFree := v)] }

  function UnlinkHash(q: Queues, b: nat): (r: Queues)
    requires Sized(q) && b < q.Nil()
    ensures Sized(r) && |r.t| == |q.t|
  {
    var n, p := q.t[b].next, q.t[b].prev;
    var t1 := if n != q.Nil() then SetPrev(q.t, n, p) else q.t;
    var t2 := if p != q.Nil() then SetNext(t1, p, n) else t1;
    q.(t := t2, hash := if q.hash[q.HashOf(b)] == b then q.hash[q.HashOf(b) := n] else q.hash)
  }

  function UnlinkFree(q: Queues, b: nat): (r: Queues)
    requires Sized(q) && b < q.Nil()
    ensures Sized(r) && |r.t| == |q.t|
  {
    var n, p := q.t[b].nextFree, q.t[b].prevFree;
    var t1 := SetNextFree(q.t, p, n);
    var t2 := SetPrevFree(t1, t1[b].nextFree, t1[b].prevFree);
    q.(t := t2, free := if q.free == b then t2[b].nextFree else q.free)
  }

  function Remove(q: Queues, b: nat): (r: Queues)
    requires Sized(q) && b < q.Nil()
    ensures Sized(r) && |r.t| == |q.t|
  {
    UnlinkFree(UnlinkHash(q, b), b)
  }

  function LinkFree(q: Queues, b: nat): (r: Queues)
    requires Sized(q) && b < q.Nil()
    ensures Sized(r) && |r.t| == |q.t|
  {
    var t1 := SetNextFree(q.t, b, q.free);
    var t2 := SetPrevFree(t1, b, t1[q.free].prevFree);
    var t3 := SetNextFree(t2, t2[q.free].prevFree, b);
    q.(t := SetPrevFree(t3, q.free, b))
  }

  /** The last store goes through b_next also when that is NULL. */
  function LinkHash(q: Queues, b: nat): (r: Queues)
    requires Sized(q) && b < q.Nil()
    ensures Sized(r) && |r.t| == |q.t|
  {
    var t1 := SetNext(SetPrev(q.t, b, q.Nil()), b, q.Nil());
    if q.t[b].h.dev == 0 then q.(t := t1) else
    var h := q.HashOf(b);
    var t2 := SetNext(t1, b, q.hash[h]);
    q.(t := SetPrev(t2, q.hash[h], b), hash := q.hash[h := b])
  }

  function Insert(q: Queues, b: nat): (r: Queues)
    requires Sized(q) && b < q.Nil()
    ensures Sized(r) && |r.t| == |q.t|
  {
    LinkHash(LinkFree(q, b), b)
  }

  function WithHeader(q: Queues, b: nat, h: Header): (r: Queues)
    requires b < |q.t|
    ensures |r.t| == |q.t| && (Sized(q) && b < q.Nil() && h.dev < SHORT ==> Sized(r))
  {
    q.(t := q.t[b := q.t[b].(h := h)])
  }

  /** The end of getblk: header b becomes the buffer of a block, held once. */
  function Rekey(q: Queues, b: nat, dev: nat, block: nat): (r: Queues)
    requires Sized(q) && b < q.Nil()
    ensures Sized(r) && |r.t| == |q.t|
  {
    var q1 := WithHeader(q, b, q.t[b].h.(count := 1, dirt := false, uptodate := false));
    var q2 := Remove(q1, b);
    Insert(WithHeader(q2, b, q2.t[b].h.(dev := dev % SHORT, block := block)), b)
  }

  // ---------- what the lists are ----------

  /** The headers of s form a ring through nextFree and prevFree, in that order. */
  predicate Ring(t: seq<Node>, s: seq<nat>)
    requires Names(s, |t|)
  {
    && (|s| > 0 ==> t[s[0]].prevFree == s[|s| - 1] && t[s[|s| - 1]].nextFree == s[0])
    && (forall i | 0 <= i < |s| - 1 :: t[s[i]].nextFree == s[i + 1] && t[s[i + 1]].prevFree == s[i])
  }

  /** The headers of s form a doubly linked list through next and prev that ends in nil. */
  predicate Linked(t: seq<Node>, s: seq<nat>, nil: int)
    requires Names(s, |t|)
  {
    && (|s| > 0 ==> t[s[0]].prev == nil && t[s[|s| - 1]].next == nil)
    && (forall i | 0 <= i < |s| - 1 :: t[s[i]].next == s[i + 1] && t[s[i + 1]].prev == s[i])
  }

  lemma UnlinkFreeEffect(q: Queues, b: nat)
    requires Sized(q) && b < q.Nil()
    ensures var n, p, t' := q.t[b].nextFree, q.t[b].prevFree, UnlinkFree(q, b).t;
      && |t'| == |q.t|
      && (forall x | 0 <= x < |q.t| :: t'[x].nextFree == if x == p then n else q.t[x].nextFree)
      && (forall x | 0 <= x < |q.t| && n != b :: t'[x].prevFree == if x == n then p else q.t[x].prevFree)
      && SameHash(q, UnlinkFree(q, b))
  {
  }

  /** The neighbours of a header in the ring. */
  lemma RingNeighbours(q: Queues, s: seq<nat>, i: nat)
    requires Sized(q) && Names(s, q.Nil()) && Ring(q.t, s) && i < |s|
    ensures q.t[s[i]].nextFree == if i + 1 < |s| then s[i + 1] else s[0]
    ensures q.t[s[i]].prevFree == if i > 0 then s[i - 1] else s[|s| - 1]
  {
    if i > 0 { assert q.t[s[i - 1]].nextFree == s[i]; }
  }

  /** The ring closes over the place of the header taken out. */
  lemma RingRemove(q: Queues, s: seq<nat>, i: nat)
    requires Sized(q) && Names(s, q.Nil()) && Ring(q.t, s) && i < |s| && |s| >= 2
    requires Names(RemoveAt(s, i), q.Nil())
    ensures Ring(UnlinkFree(q, s[i]).t, RemoveAt(s, i))
  {
    RingNeighbours(q, s, i);
    UnlinkFreeEffect(q, s[i]);
    RingClose(q.t, UnlinkFree(q, s[i]).t, s, i, q.Nil());
  }

  lemma RingClose(t: seq<Node>, t': seq<Node>, s: seq<nat>, i: nat, m: nat)
    requires m < |t| == |t'| && Names(s, m) && Ring(t, s) && i < |s| && |s| >= 2 && Names(RemoveAt(s, i), m)
    requires var n := if i + 1 < |s| then s[i + 1] else s[0];
      var p := if i > 0 then s[i - 1] else s[|s| - 1];
      && (forall x | 0 <= x < |t| :: t'[x].nextFree == if x == p then n else t[x].nextFree)
      && (forall x | 0 <= x < |t| :: t'[x].prevFree == if x == n then p else t[x].prevFree)
    ensures Ring(t', RemoveAt(s, i))
  {
    var r := RemoveAt(s, i);
    forall j | 0 <= j < |r| - 1 ensures t'[r[j]].nextFree == r[j + 1] && t'[r[j + 1]].prevFree == r[j] {
      if j + 1 < i {
        assert r[j] == s[j] && r[j + 1] == s[j + 1];
      } else if j + 1 == i {
        assert r[j] == s[j] && r[j + 1] == s[j + 2];
      } else {
        assert r[j] == s[j + 1] && r[j + 1] == s[j + 2];
      }
    }
    assert r[0] == (if i == 0 then s[1] else s[0]) && r[|r| - 1] == if i + 1 == |s| then s[|s| - 2] else s[|s| - 1];
  }

  predicate SameHeaders(q: Queues, q': Queues) {
    |q'.t| == |q.t| && forall x | 0 <= x < |q.t| :: q'.t[x].h == q.t[x].h
  }

  /** Only the free list differs. */
  predicate SameHash(q: Queues, q': Queues) {
    && |q'.t| == |q.t| && q'.hash == q.hash
    && (forall x | 0 <= x < |q.t| ::
          q'.t[x].h == q.t[x].h && q'.t[x].prev == q.t[x].prev && q'.t[x].next == q.t[x].next)
  }

  /** Only the hash chains differ. */
  predicate SameFree(q: Queues, q': Queues) {
    && |q'.t| == |q.t| && q'.free == q.free
    && (forall x | 0 <= x < |q.t| ::
          q'.t[x].h == q.t[x].h && q'.t[x].prevFree == q.t[x].prevFree && q'.t[x].nextFree == q.t[x].nextFree)
  }

  /** The header appended comes last. */
  lemma RingAppend(q: Queues, s: seq<nat>, b: nat)
    requires Sized(q) && Names(s, q.Nil()) && Ring(q.t, s) && b < q.Nil() && b !in s
    requires if s != [] then q.free == s[0] else q.free == b && q.t[b].prevFree == b
    ensures Names(s + [b], q.Nil()) && Ring(LinkFree(q, b).t, s + [b])
    ensures SameHash(q, LinkFree(q, b))
  {
    LinkFreeEffect(q, b);
    if s != [] { RingOpen(q.t, LinkFree(q, b).t, s, b, q.Nil()); }
  }

  lemma LinkFreeEffect(q: Queues, b: nat)
    requires Sized(q) && b < q.Nil()
    ensures var last, t' := if q.free == b then b else q.t[q.free].prevFree, LinkFree(q, b).t;
      && SameHash(q, LinkFree(q, b)) && LinkFree(q, b).free == q.free
      && (q.free == b && q.t[b].prevFree == b ==> t'[b].nextFree == b && t'[b].prevFree == b)
      && (q.free != b && last != b ==>
            && (forall x | 0 <= x < |q.t| ::
                   t'[x].nextFree == if x == last then b else if x == b then q.free else q.t[x].nextFree)
            && (forall x | 0 <= x < |q.t| ::
                   t'[x].prevFree == if x == q.free then b else if x == b then last else q.t[x].prevFree))
  {
  }

  lemma RingOpen(t: seq<Node>, t': seq<Node>, s: seq<nat>, b: nat, m: nat)
    requires m < |t| == |t'| && Names(s, m) && Ring(t, s) && s != [] && b < m && b !in s && Names(s + [b], m)
    requires forall x | 0 <= x < |t| ::
               t'[x].nextFree == if x == s[|s| - 1] then b else if x == b then s[0] else t[x].nextFree
    requires forall x | 0 <= x < |t| ::
               t'[x].prevFree == if x == s[0] then b else if x == b then s[|s| - 1] else t[x].prevFree
    ensures Ring(t', s + [b])
  {
    var r := s + [b];
    forall j | 0 <= j < |r| - 1 ensures t'[r[j]].nextFree == r[j + 1] && t'[r[j + 1]].prevFree == r[j] {
      if j + 1 < |s| {
        assert r[j] == s[j] && r[j + 1] == s[j + 1];
        assert s[j] != s[|s| - 1] && s[j + 1] != s[0] && s[j] in s && s[j + 1] in s;
      }
    }
  }

  /** The chain of hash h: hung off the table, and exactly the keyed headers with that hash, but
      not header `out`. */
  predicate ChainOk(q: Queues, s: seq<nat>, h: nat, out: int)
    requires Sized(q) && h < NR_HASH
  {
    && Names(s, q.Nil()) && Linked(q.t, s, q.Nil())
    && q.hash[h] == (if s == [] then q.Nil() else s[0])
    && (forall k | 0 <= k < q.Nil() :: k in s <==> k != out && q.t[k].h.dev != 0 && q.HashOf(k) == h)
  }

  /** The free list holds every header but `out`; a ring of one stays linked to itself. */
  predicate FreeOk(q: Queues, order: seq<nat>, out: int)
    requires Sized(q)
  {
    && Names(order, q.Nil()) && Ring(q.t, order) && (forall k | 0 <= k < q.Nil() :: k in order <==> k != out)
    && (if order != [] then q.free == order[0] else q.free == out && q.t[q.free].prevFree == q.free)
  }

  /** All lists are right, with header `out` (if any) in none of them. */
  predicate ListsBut(q: Queues, order: seq<nat>, chains: seq<seq<nat>>, out: int) {
    && Sized(q) && FreeOk(q, order, out) && |chains| == NR_HASH
    && (forall h | 0 <= h < NR_HASH :: ChainOk(q, chains[h], h, out))
    && (forall k | 0 <= k < q.Nil() && k != out && q.t[k].h.dev == 0 :: q.t[k].prev == q.t[k].next == q.Nil())
  }

  predicate Lists(q: Queues, order: seq<nat>, chains: seq<seq<nat>>) { ListsBut(q, order, chains, -1) }

  // ---------- taking a header out ----------

  lemma UnlinkHashEffect(q: Queues, b: nat)
    requires Sized(q) && b < q.Nil()
    ensures var n, p, h, q' := q.t[b].next, q.t[b].prev, q.HashOf(b), UnlinkHash(q, b);
      && SameFree(q, q')
      && (forall x | 0 <= x < q.Nil() && n != b :: q'.t[x].prev == if x == n then p else q.t[x].prev)
      && (forall x | 0 <= x < q.Nil() && n != b :: q'.t[x].next == if x == p then n else q.t[x].next)
      && q'.hash == if q.hash[h] == b then q.hash[h := n] else q.hash
  {
  }

  /** The neighbours of a header in its chain. */
  lemma Neighbours(q: Queues, s: seq<nat>, i: nat)
    requires Sized(q) && Names(s, q.Nil()) && Linked(q.t, s, q.Nil()) && i < |s|
    ensures q.t[s[i]].next == if i + 1 < |s| then s[i + 1] else q.Nil()
    ensures q.t[s[i]].prev == if i > 0 then s[i - 1] else q.Nil()
  {
    if i > 0 { assert q.t[s[i - 1]].next == s[i]; }
  }

  lemma ChainRemove(q: Queues, s: seq<nat>, i: nat)
    requires Sized(q) && i < |s| && s[i] < q.Nil() && q.t[s[i]].h.dev != 0 && ChainOk(q, s, q.HashOf(s[i]), -1)
    ensures ChainOk(UnlinkHash(q, s[i]), RemoveAt(s, i), q.HashOf(s[i]), s[i])
  {
    hide UnlinkHash, Hash, Linked, RemoveAt;
    var b, r, q' := s[i], RemoveAt(s, i), UnlinkHash(q, s[i]);
    Neighbours(q, s, i);
    UnlinkHashEffect(q, b);
    RemoveAtMembers(s, i, q.Nil());
    LinkedRemove(q, q', s, i);
    RemoveAtHead(s, i);
    assert i == 0 <==> s[0] == b;
  }

  lemma RemoveAtHead(s: seq<nat>, i: nat)
    requires i < |s|
    ensures |RemoveAt(s, i)| == |s| - 1
    ensures |s| > 1 ==> RemoveAt(s, i)[0] == if i == 0 then s[1] else s[0]
  {
  }

  lemma LinkedRemove(q: Queues, q': Queues, s: seq<nat>, i: nat)
    requires Sized(q) && |q'.t| == |q.t| && Names(s, q.Nil()) && Linked(q.t, s, q.Nil()) && i < |s|
    requires Names(RemoveAt(s, i), q.Nil())
    requires var n, p := q.t[s[i]].next, q.t[s[i]].prev;
      && (forall x | 0 <= x < q.Nil() :: q'.t[x].prev == if x == n then p else q.t[x].prev)
      && (forall x | 0 <= x < q.Nil() :: q'.t[x].next == if x == p then n else q.t[x].next)
    ensures Linked(q'.t, RemoveAt(s, i), q.Nil())
  {
    var r := RemoveAt(s, i);
    Neighbours(q, s, i);
    forall j | 0 <= j < |r| - 1 ensures q'.t[r[j]].next == r[j + 1] && q'.t[r[j + 1]].prev == r[j] {
      assert r[j] == s[if j < i then j else j + 1] && r[j + 1] == s[if j + 1 < i then j + 1 else j + 2];
    }
  }

  /** Other chains do not notice. */
  lemma ChainApart(q: Queues, s: seq<nat>, i: nat, c: seq<nat>, h: nat)
    requires Sized(q) && i < |s| && s[i] < q.Nil() && q.t[s[i]].h.dev != 0 && ChainOk(q, s, q.HashOf(s[i]), -1)
    requires h < NR_HASH && h != q.HashOf(s[i]) && ChainOk(q, c, h, -1)
    ensures ChainOk(UnlinkHash(q, s[i]), c, h, s[i])
  {
    hide UnlinkHash, Hash;
    var b := s[i];
    Neighbours(q, s, i);
    UnlinkHashEffect(q, b);
    Disjoint(q, s, c, q.HashOf(b), h);
    assert i + 1 < |s| ==> s[i + 1] in s;
    assert i > 0 ==> s[i - 1] in s;
    var q' := UnlinkHash(q, b);
    forall j | 0 <= j < |c| ensures q'.t[c[j]].prev == q.t[c[j]].prev && q'.t[c[j]].next == q.t[c[j]].next {
      assert c[j] in c;
    }
  }

  lemma Disjoint(q: Queues, s: seq<nat>, c: seq<nat>, g: nat, h: nat)
    requires Sized(q) && g < NR_HASH && h < NR_HASH && g != h && ChainOk(q, s, g, -1) && ChainOk(q, c, h, -1)
    ensures forall x :: !(x in s && x in c)
  {
  }

  /** A chain is not affected by changes to the free list. */
  lemma ChainKept(q: Queues, q': Queues, s: seq<nat>, h: nat, out: int)
    requires Sized(q) && Sized(q') && SameHash(q, q') && h < NR_HASH && ChainOk(q, s, h, out)
    ensures ChainOk(q', s, h, out)
  {
    hide Hash;
  }

  function ChainsWithout(q: Queues, chains: seq<seq<nat>>, b: nat): seq<seq<nat>>
    requires Sized(q) && b < q.Nil() && |chains| == NR_HASH
    requires q.t[b].h.dev != 0 ==> b in chains[q.HashOf(b)]
  {
    if q.t[b].h.dev == 0 then chains
    else var s := chains[q.HashOf(b)]; chains[q.HashOf(b) := RemoveAt(s, IndexOf(s, b))]
  }

  lemma InChain(q: Queues, order: seq<nat>, chains: seq<seq<nat>>, b: nat)
    requires Lists(q, order, chains) && b < q.Nil()
    ensures q.t[b].h.dev != 0 ==> b in chains[q.HashOf(b)] && ChainOk(q, chains[q.HashOf(b)], q.HashOf(b), -1)
    ensures b in order
  {
    assert ChainOk(q, chains[q.HashOf(b)], q.HashOf(b), -1);
  }

  /** All chains after a header was taken out of its own. */
  lemma ChainsRemove(q: Queues, order: seq<nat>, chains: seq<seq<nat>>, b: nat, h: nat)
    requires Lists(q, order, chains) && b < q.Nil() && h < NR_HASH
    requires q.t[b].h.dev != 0 ==> b in chains[q.HashOf(b)]
    ensures ChainOk(UnlinkHash(q, b), ChainsWithout(q, chains, b)[h], h, b)
  {
    hide Hash, Linked, UnlinkHash;
    assert ChainOk(q, chains[h], h, -1);
    if q.t[b].h.dev == 0 {
      Unchained(q, order, chains, b);
    } else {
      InChain(q, order, chains, b);
      var g := q.HashOf(b);
      var i := IndexOf(chains[g], b);
      if h == g { ChainRemove(q, chains[g], i); } else { ChainApart(q, chains[g], i, chains[h], h); }
    }
  }

  /** A header of device 0 is in no chain, and taking it out does nothing there. */
  lemma Unchained(q: Queues, order: seq<nat>, chains: seq<seq<nat>>, b: nat)
    requires Lists(q, order, chains) && b < q.Nil() && q.t[b].h.dev == 0
    ensures UnlinkHash(q, b) == q
    ensures forall h | 0 <= h < NR_HASH :: ChainOk(q, chains[h], h, b)
  {
    hide Hash, Linked;
    var h := q.HashOf(b);
    assert ChainOk(q, chains[h], h, -1);
    assert chains[h] != [] ==> chains[h][0] in chains[h];
    forall g | 0 <= g < NR_HASH ensures ChainOk(q, chains[g], g, b) { assert ChainOk(q, chains[g], g, -1); }
  }

  /** removeFromQueues takes one header out of both lists and leaves the others in order. */
  lemma RemoveOk(q: Queues, order: seq<nat>, chains: seq<seq<nat>>, b: nat)
    requires Lists(q, order, chains) && b < q.Nil()
    ensures b in order && (q.t[b].h.dev != 0 ==> b in chains[q.HashOf(b)])
    ensures ListsBut(Remove(q, b), RemoveAt(order, IndexOf(order, b)), ChainsWithout(q, chains, b), b)
    ensures SameHeaders(q, Remove(q, b))
  {
    hide Hash, ChainOk, FreeOk, UnlinkHash, UnlinkFree, Sized, IndexOf, RemoveAt;
    InChain(q, order, chains, b);
    var q1, q2, c := UnlinkHash(q, b), Remove(q, b), ChainsWithout(q, chains, b);
    SizedLists(q, order, chains, b);
    UnlinkHashEffect(q, b);
    FreeRemove(q, q1, order, b);
    UnlinkFreeHash(q1, b);
    forall h | 0 <= h < NR_HASH ensures ChainOk(q2, c[h], h, b) {
      ChainsRemove(q, order, chains, b, h);
      ChainKept(q1, q2, c[h], h, b);
    }
    Bare(q, order, chains, b);
  }

  lemma SizedLists(q: Queues, order: seq<nat>, chains: seq<seq<nat>>, b: nat)
    requires Lists(q, order, chains) && b < q.Nil()
    ensures Sized(q) && FreeOk(q, order, -1) && Sized(Remove(q, b))
  {
  }

  lemma UnlinkFreeHash(q: Queues, b: nat)
    requires Sized(q) && b < q.Nil()
    ensures SameHash(q, UnlinkFree(q, b))
  {
  }

  /** Headers of device 0 keep their empty links. */
  lemma Bare(q: Queues, order: seq<nat>, chains: seq<seq<nat>>, b: nat)
    requires Lists(q, order, chains) && b < q.Nil()
    ensures var q1 := UnlinkHash(q, b);
      forall k | 0 <= k < q.Nil() && k != b && q.t[k].h.dev == 0 :: q1.t[k].prev == q1.t[k].next == q.Nil()
  {
    hide Hash, UnlinkHash;
    if q.t[b].h.dev == 0 {
      Unchained(q, order, chains, b);
    } else {
      InChain(q, order, chains, b);
      var s := chains[q.HashOf(b)];
      var i := IndexOf(s, b);
      Neighbours(q, s, i);
      UnlinkHashEffect(q, b);
      assert i + 1 < |s| ==> s[i + 1] in s;
      assert i > 0 ==> s[i - 1] in s;
    }
  }

  /** The free list without b. */
  lemma FreeRemove(q: Queues, q1: Queues, order: seq<nat>, b: nat)
    requires Sized(q) && Sized(q1) && SameFree(q, q1) && FreeOk(q, order, -1) && b < q.Nil() && b in order
    ensures FreeOk(UnlinkFree(q1, b), RemoveAt(order, IndexOf(order, b)), b)
  {
    hide UnlinkFree, Ring, RemoveAt;
    var i := IndexOf(order, b);
    var r := RemoveAt(order, i);
    RemoveAtMembers(order, i, q.Nil());
    RemoveAtHead(order, i);
    assert i == 0 <==> order[0] == b;
    RingSame(q.t, q1.t, order, q.Nil());
    UnlinkFreeHash(q1, b);
    RingNeighbours(q1, order, i);
    if |order| >= 2 {
      RingRemove(q1, order, i);
      UnlinkFreeHead(q1, b);
    } else {
      UnlinkAlone(q1, b);
      EmptyRing(UnlinkFree(q1, b).t);
    }
  }

  lemma EmptyRing(t: seq<Node>)
    ensures Ring(t, [])
  {
  }

  lemma RingSame(t: seq<Node>, t': seq<Node>, s: seq<nat>, n: nat)
    requires n < |t| == |t'| && Names(s, n) && Ring(t, s)
    requires forall x | 0 <= x < |t| :: t'[x].prevFree == t[x].prevFree && t'[x].nextFree == t[x].nextFree
    ensures Ring(t', s)
  {
  }

  lemma UnlinkAlone(q: Queues, b: nat)
    requires Sized(q) && b < q.Nil() && q.free == b && q.t[b].nextFree == q.t[b].prevFree == b
    ensures UnlinkFree(q, b).free == b && UnlinkFree(q, b).t[b].prevFree == b && |UnlinkFree(q, b).t| == |q.t|
  {
  }

  lemma UnlinkFreeHead(q: Queues, b: nat)
    requires Sized(q) && b < q.Nil() && q.t[b].nextFree != b
    ensures UnlinkFree(q, b).free == if q.free == b then q.t[b].nextFree else q.free
  {
  }

  // ---------- putting a header in ----------

  function ChainsWith(q: Queues, chains: seq<seq<nat>>, b: nat): seq<seq<nat>>
    requires Sized(q) && b < q.Nil() && |chains| == NR_HASH
  {
    if q.t[b].h.dev == 0 then chains
    else chains[q.HashOf(b) := [b] + chains[q.HashOf(b)]]
  }

  lemma LinkHashEffect(q: Queues, b: nat)
    requires Sized(q) && b < q.Nil()
    ensures var h, q' := q.HashOf(b), LinkHash(q, b);
      && SameFree(q, q') && q'.t[b].next == (if q.t[b].h.dev == 0 then q.Nil() else q.hash[h])
      && (q.t[b].h.dev == 0 || q.hash[h] != b ==> q'.t[b].prev == q.Nil())
      && (forall x | 0 <= x < q.Nil() && x != b :: q'.t[x].next == q.t[x].next)
      && (forall x | 0 <= x < q.Nil() && x != b ::
            q'.t[x].prev == if q.t[b].h.dev != 0 && x == q.hash[h] then b else q.t[x].prev)
      && q'.hash == if q.t[b].h.dev == 0 then q.hash else q.hash[h := b]
  {
  }

  lemma ChainInsert(q: Queues, s: seq<nat>, b: nat)
    requires Sized(q) && b < q.Nil() && q.t[b].h.dev != 0 && ChainOk(q, s, q.HashOf(b), b)
    ensures ChainOk(LinkHash(q, b), [b] + s, q.HashOf(b), -1)
  {
    hide LinkHash, Hash, Linked;
    LinkHashEffect(q, b);
    assert s != [] ==> s[0] in s;
    LinkedInsert(q, LinkHash(q, b), s, b);
    assert forall k :: k in [b] + s <==> k == b || k in s;
  }

  lemma LinkedInsert(q: Queues, q': Queues, s: seq<nat>, b: nat)
    requires Sized(q) && |q'.t| == |q.t| && Names(s, q.Nil()) && Linked(q.t, s, q.Nil()) && b !in s && b < q.Nil()
    requires Names([b] + s, q.Nil())
    requires var n := if s == [] then q.Nil() else s[0];
      && q'.t[b].next == n && q'.t[b].prev == q.Nil()
      && (forall x | 0 <= x < q.Nil() && x != b :: q'.t[x].next == q.t[x].next)
      && (forall x | 0 <= x < q.Nil() && x != b :: q'.t[x].prev == if x == n then b else q.t[x].prev)
    ensures Linked(q'.t, [b] + s, q.Nil())
  {
    var r := [b] + s;
    forall j | 0 <= j < |r| - 1 ensures q'.t[r[j]].next == r[j + 1] && q'.t[r[j + 1]].prev == r[j] {
      assert r[j + 1] == s[j] && s[j] in s;
      if j > 0 { assert r[j] == s[j - 1] && s[j - 1] in s; }
    }
    if s != [] { assert r[|r| - 1] == s[|s| - 1] && s[|s| - 1] in s; }
  }

  lemma ChainBeside(q: Queues, s: seq<nat>, b: nat, c: seq<nat>, h: nat)
    requires Sized(q) && b < q.Nil() && ChainOk(q, s, q.HashOf(b), b)
    requires h < NR_HASH && (q.t[b].h.dev != 0 ==> h != q.HashOf(b)) && ChainOk(q, c, h, b)
    ensures ChainOk(LinkHash(q, b), c, h, -1)
  {
    hide LinkHash, Hash;
    LinkHashEffect(q, b);
    var q' := LinkHash(q, b);
    assert s != [] ==> s[0] in s;
    forall j | 0 <= j < |c|
      ensures c[j] != b && q'.t[c[j]].prev == q.t[c[j]].prev && q'.t[c[j]].next == q.t[c[j]].next
    {
      assert c[j] in c;
    }
  }

  /** insertIntoQueues puts the header last in the free list and, unless its device is 0, first in
      the chain of its key. */
  lemma InsertOk(q: Queues, order: seq<nat>, chains: seq<seq<nat>>, b: nat)
    requires ListsBut(q, order, chains, b) && b < q.Nil()
    ensures Lists(Insert(q, b), order + [b], ChainsWith(q, chains, b))
    ensures SameHeaders(q, Insert(q, b))
  {
    hide ChainOk, LinkHash, LinkFree, Hash;
    var q1, q2, c := LinkFree(q, b), Insert(q, b), ChainsWith(q, chains, b);
    FreeAppend(q, order, b);
    LinkHashEffect(q1, b);
    forall h | 0 <= h < NR_HASH ensures ChainOk(q2, c[h], h, -1) {
      ChainKept(q, q1, chains[h], h, b);
      ChainKept(q, q1, chains[q.HashOf(b)], q.HashOf(b), b);
      if q.t[b].h.dev != 0 && h == q.HashOf(b) {
        ChainInsert(q1, chains[h], b);
      } else {
        ChainBeside(q1, chains[q.HashOf(b)], b, chains[h], h);
      }
    }
    FreeSame(q1, q2, order + [b]);
    BareInsert(q, q1, order, chains, b);
  }

  lemma BareInsert(q: Queues, q1: Queues, order: seq<nat>, chains: seq<seq<nat>>, b: nat)
    requires ListsBut(q, order, chains, b) && b < q.Nil() && Sized(q1) && SameHash(q, q1)
    ensures var q2 := LinkHash(q1, b);
      forall k | 0 <= k < q.Nil() && q2.t[k].h.dev == 0 :: q2.t[k].prev == q2.t[k].next == q.Nil()
  {
    hide LinkHash, Hash;
    LinkHashEffect(q1, b);
    var h := q.HashOf(b);
    assert ChainOk(q, chains[h], h, b);
    assert chains[h] != [] ==> chains[h][0] in chains[h];
  }

  lemma FreeAppend(q: Queues, order: seq<nat>, b: nat)
    requires Sized(q) && b < q.Nil() && FreeOk(q, order, b)
    ensures FreeOk(LinkFree(q, b), order + [b], -1) && SameHash(q, LinkFree(q, b))
  {
    hide LinkFree;
    LinkFreeEffect(q, b);
    RingAppend(q, order, b);
    assert forall k :: k in order + [b] <==> k in order || k == b;
  }

  lemma FreeSame(q: Queues, q': Queues, order: seq<nat>)
    requires Sized(q) && Sized(q') && SameFree(q, q') && FreeOk(q, order, -1) && order != []
    ensures FreeOk(q', order, -1)
  {
    RingSame(q.t, q'.t, order, q.Nil());
  }

  /** What insertIntoQueues stores through a NULL b_next: the word a header would keep b_prev in at
      address 0 is overwritten exactly when the header starts a new chain. */
  lemma NullStore(q: Queues, b: nat)
    requires Sized(q) && b < q.Nil()
    ensures Insert(q, b).t[q.Nil()] ==
      if q.t[b].h.dev != 0 && q.hash[q.HashOf(b)] == q.Nil() then q.t[q.Nil()].(prev := b) else q.t[q.Nil()]
  {
    hide Hash;
  }

  // ---------- re-keying ----------

  /** The headers without their links. */
  function Headers(q: Queues): (hs: seq<Header>)
    requires Sized(q)
    ensures |hs| == q.Nil() && forall k | 0 <= k < |hs| :: hs[k] == q.t[k].h
  {
    seq(q.Nil(), k requires 0 <= k < q.Nil() => q.t[k].h)
  }

  /** Flags and counts are no concern of the lists; the key of a header in no list is not either. */
  lemma WithHeaderOk(q: Queues, order: seq<nat>, chains: seq<seq<nat>>, b: nat, h: Header, out: int)
    requires ListsBut(q, order, chains, out) && b < q.Nil() && h.dev < SHORT
    requires b == out || (h.dev == q.t[b].h.dev && h.block == q.t[b].h.block)
    ensures ListsBut(WithHeader(q, b, h), order, chains, out)
  {
    hide Hash, ChainOk, Ring;
    var q' := WithHeader(q, b, h);
    RingSame(q.t, q'.t, order, q.Nil());
    forall g | 0 <= g < NR_HASH ensures ChainOk(q', chains[g], g, out) {
      ChainSame(q, q', chains[g], g, out);
    }
  }

  lemma ChainSame(q: Queues, q': Queues, s: seq<nat>, g: nat, out: int)
    requires Sized(q) && Sized(q') && g < NR_HASH && ChainOk(q, s, g, out) && q'.hash == q.hash && |q'.t| == |q.t|
    requires forall x | 0 <= x < |q.t| :: q'.t[x].prev == q.t[x].prev && q'.t[x].next == q.t[x].next
    requires forall k | 0 <= k < q.Nil() && k != out ::
               q'.t[k].h.dev == q.t[k].h.dev && q'.t[k].h.block == q.t[k].h.block
    ensures ChainOk(q', s, g, out)
  {
    hide Hash, Linked;
    LinkedSame(q, q', s);
  }

  lemma LinkedSame(q: Queues, q': Queues, s: seq<nat>)
    requires Sized(q) && |q'.t| == |q.t| && Names(s, q.Nil()) && Linked(q.t, s, q.Nil())
    requires forall x | 0 <= x < |q.t| :: q'.t[x].prev == q.t[x].prev && q'.t[x].next == q.t[x].next
    ensures Linked(q'.t, s, q.Nil())
  {
  }

  /** The commit of getblk keeps all lists right, moves the header to the tail of the free list,
      gives it the new key with one holder, and changes no other header. */
  lemma RekeyOk(q: Queues, order: seq<nat>, chains: seq<seq<nat>>, b: nat, dev: nat, block: nat)
    requires Lists(q, order, chains) && b < q.Nil()
    ensures b in order && exists c :: Lists(Rekey(q, b, dev, block), MoveToTail(order, b), c)
    ensures Sized(q) && Headers(Rekey(q, b, dev, block))
         == Headers(q)[b := Header(dev % SHORT, block, false, false, 1, q.t[b].h.lock)]
  {
    hide ChainOk, FreeOk, UnlinkHash, UnlinkFree, LinkFree, LinkHash, Hash;
    var h1 := q.t[b].h.(count := 1, dirt := false, uptodate := false);
    var q1 := WithHeader(q, b, h1);
    WithHeaderOk(q, order, chains, b, h1, -1);
    RemoveOk(q1, order, chains, b);
    var q2, order2, c2 := Remove(q1, b), RemoveAt(order, IndexOf(order, b)), ChainsWithout(q1, chains, b);
    var h3 := h1.(dev := dev % SHORT, block := block);
    var q3 := WithHeader(q2, b, h3);
    WithHeaderOk(q2, order2, c2, b, h3, b);
    InsertOk(q3, order2, c2, b);
    assert Rekey(q, b, dev, block) == Insert(q3, b);
    assert Lists(Rekey(q, b, dev, block), MoveToTail(order, b), ChainsWith(q3, c2, b));
  }

  // ---------- looking up ----------

  /** The loop of findBuffer from header b on, with at most n looks. */
  function Walk(q: Queues, b: nat, dev: nat, block: nat, n: nat): (r: nat)
    requires Sized(q) && b <= q.Nil()
    ensures r <= q.Nil()
    decreases n
  {
    if n == 0 || b == q.Nil() then q.Nil()
    else if q.t[b].h.dev == dev && q.t[b].h.block == block then b
    else Walk(q, q.t[b].next, dev, block, n - 1)
  }

  /** findBuffer; the number one past the last header is its NULL. */
  function Lookup(q: Queues, dev: nat, block: nat): (r: nat)
    requires Sized(q)
    ensures r <= q.Nil()
  {
    Walk(q, q.hash[Hash(dev, block)], dev, block, q.Nil())
  }

  lemma {:induction false} WalkChain(q: Queues, s: seq<nat>, i: nat, dev: nat, block: nat, n: nat)
    requires Sized(q) && Names(s, q.Nil()) && Linked(q.t, s, q.Nil()) && i <= |s| <= i + n
    ensures var r := Walk(q, if i < |s| then s[i] else q.Nil(), dev, block, n);
      && (r < q.Nil() ==> r in s && q.t[r].h.dev == dev && q.t[r].h.block == block)
      && (r == q.Nil() ==> forall j | i <= j < |s| :: !(q.t[s[j]].h.dev == dev && q.t[s[j]].h.block == block))
    decreases |s| - i
  {
    if i < |s| {
      Neighbours(q, s, i);
      if !(q.t[s[i]].h.dev == dev && q.t[s[i]].h.block == block) {
        WalkChain(q, s, i + 1, dev, block, n - 1);
      }
    }
  }

  /** On proper lists the walk of one chain finds a header for the block exactly when there is one
      anywhere. */
  lemma LookupOk(q: Queues, order: seq<nat>, chains: seq<seq<nat>>, dev: nat, block: nat)
    requires Lists(q, order, chains)
    ensures var r := Lookup(q, dev, block);
      && (r == q.Nil() <==> !Present(Headers(q), dev, block))
      && (r < q.Nil() ==> Keyed(q.t[r].h, dev, block))
  {
    hide Linked, Hash;
    var h := Hash(dev, block);
    assert ChainOk(q, chains[h], h, -1);
    NamesBound(chains[h], q.Nil());
    WalkChain(q, chains[h], 0, dev, block, q.Nil());
    var r := Lookup(q, dev, block);
    if r == q.Nil() {
      forall k | 0 <= k < q.Nil() ensures !Keyed(Headers(q)[k], dev, block) {
        assert k in chains[h] <==> q.t[k].h.dev != 0 && q.HashOf(k) == h;
      }
    } else {
      assert Keyed(Headers(q)[r], dev, block);
    }
  }

  // ---------- the first state ----------

  function FirstNode(k: nat, n: nat): Node
    requires k < n
  {
    Node(Header(0, 0, false, false, 0, false), n, n, if k == 0 then n - 1 else k - 1, if k == n - 1 then 0 else k + 1)
  }

  /** All headers of device 0, unheld, in the order of memory. */
  predicate Fresh(q: Queues) {
    && |q.t| >= 2 && q.free == 0 && |q.hash| == NR_HASH && (forall h | 0 <= h < NR_HASH :: q.hash[h] == q.Nil())
    && (forall k | 0 <= k < q.Nil() :: q.t[k].h.dev == 0 && q.t[k] == FirstNode(k, q.Nil()).(h := q.t[k].h))
  }

  lemma FreshOk(q: Queues, order: seq<nat>, chains: seq<seq<nat>>)
    requires Fresh(q) && |order| == q.Nil() && forall i | 0 <= i < |order| :: order[i] == i
    requires |chains| == NR_HASH && forall h | 0 <= h < NR_HASH :: chains[h] == []
    ensures Lists(q, order, chains)
  {
    var n := q.Nil();
    assert Sized(q);
    forall i | 0 <= i < n - 1
      ensures q.t[order[i]].nextFree == order[i + 1] && q.t[order[i + 1]].prevFree == order[i]
    {
      assert q.t[i] == FirstNode(i, n).(h := q.t[i].h) && q.t[i + 1] == FirstNode(i + 1, n).(h := q.t[i + 1].h);
    }
    assert Ring(q.t, order);
    forall k: nat | k < n ensures k in order { assert order[k] == k; }
    forall h | 0 <= h < NR_HASH ensures ChainOk(q, chains[h], h, -1) {}
  }

  /** All headers replaced at once, with the keys they had. */
  function WithHeaders(q: Queues, hs: seq<Header>): (r: Queues)
    requires |hs| < |q.t|
    ensures |r.t| == |q.t| && r.free == q.free && r.hash == q.hash
    ensures forall k | 0 <= k < |q.t| :: r.t[k] == if k < |hs| then q.t[k].(h := hs[k]) else q.t[k]
  {
    q.(t := seq(|q.t|, k requires 0 <= k < |q.t| => if k < |hs| then q.t[k].(h := hs[k]) else q.t[k]))
  }

  lemma WithHeadersOk(q: Queues, order: seq<nat>, chains: seq<seq<nat>>, hs: seq<Header>)
    requires Lists(q, order, chains) && |hs| == q.Nil()
    requires forall k | 0 <= k < |hs| :: hs[k].dev == q.t[k].h.dev && hs[k].block == q.t[k].h.block
    ensures Lists(WithHeaders(q, hs), order, chains) && Headers(WithHeaders(q, hs)) == hs
  {
    hide Hash, WithHeaders;
    var q' := WithHeaders(q, hs);
    RingSame(q.t, q'.t, order, q.Nil());
    forall g | 0 <= g < NR_HASH ensures ChainOk(q', chains[g], g, -1) {
      assert ChainOk(q, chains[g], g, -1);
      LinkedSame(q, q', chains[g]);
    }
  }
}
