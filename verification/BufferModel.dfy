/** Buffer headers as values: lookup by key, choice of a victim, and the order of the free list
    (include/fs.h, fs/buffer.c). */
module BufferModel {
  const NR_HASH := 307
  const BYTE := 256        // b_count is an unsigned byte
  const SHORT := 0x10000   // b_dev is an unsigned 16-bit field

  datatype Header = Header(dev: nat, block: nat, uptodate: bool, dirt: bool, count: nat, lock: bool)

  datatype Option<T> = None | Some(value: T)

  function Low(n: nat): bv16 { (n % SHORT) as bv16 }

  function Mix(a: bv16, b: bv16): (h: nat)
    ensures h < NR_HASH
  {
    (a ^ b) as nat % NR_HASH
  }

  /** _HASHFN: the low sixteen bits of dev ^ block, modulo NR_HASH. */
  function Hash(dev: nat, block: nat): (h: nat)
    ensures h < NR_HASH
  {
    Mix(Low(dev), Low(block))
  }

  lemma MixOk(a: bv16, b: bv16)
    ensures Mix(a, b) == Mix(b, a) && Mix(a, a) == 0 && Mix(0, b) == b as nat % NR_HASH
  {
    assert a ^ b == b ^ a && a ^ a == 0 && 0 ^ b == b;
  }

  /** Equal numbers cancel, the order does not matter, and bits past the sixteenth count for nothing. */
  lemma HashOk(dev: nat, block: nat)
    ensures Hash(dev, dev) == 0 && Hash(dev, block) == Hash(block, dev) == Hash(dev % SHORT, block % SHORT)
  {
    MixOk(Low(dev), Low(block));
    MixOk(Low(dev), Low(dev));
    LowTwice(dev);
    LowTwice(block);
    hide Mix, Low;
  }

  lemma LowTwice(n: nat)
    ensures Low(n % SHORT) == Low(n)
  {
    assert n % SHORT % SHORT == n % SHORT;
  }

  /** BADNESS: twice the dirty flag plus the lock. */
  function Badness(h: Header): nat {
    (if h.dirt then 2 else 0) + (if h.lock then 1 else 0)
  }

  /** What getblk prefers, in terms of the header: clean before dirty, and then unlocked before locked. */
  predicate NoWorse(h: Header, g: Header) {
    (h.dirt ==> g.dirt) && (h.dirt == g.dirt && h.lock ==> g.lock)
  }

  predicate AsGood(h: Header, g: Header) { h.dirt == g.dirt && h.lock == g.lock }

  lemma BadnessOrder(h: Header, g: Header)
    ensures Badness(h) <= Badness(g) <==> NoWorse(h, g)
    ensures Badness(h) == Badness(g) <==> AsGood(h, g)
    ensures Badness(h) == 0 <==> !h.dirt && !h.lock
  {
  }

  predicate Keyed(h: Header, dev: nat, block: nat) {
    h.dev == dev && h.block == block && dev != 0
  }

  /** No two headers stand for the same block of a device. Device 0 means "none". */
  predicate Unique(hs: seq<Header>) {
    forall a, b | 0 <= a < |hs| && 0 <= b < |hs| && hs[a].dev != 0
      && hs[a].dev == hs[b].dev && hs[a].block == hs[b].block :: a == b
  }

  predicate Present(hs: seq<Header>, dev: nat, block: nat) {
    exists k :: 0 <= k < |hs| && Keyed(hs[k], dev, block)
  }

  /** s names distinct headers. */
  predicate Names(s: seq<nat>, n: nat) {
    (forall i | 0 <= i < |s| :: s[i] < n) && (forall i, j | 0 <= i < j < |s| :: s[i] != s[j])
  }

  /** A list of all the headers, each once. */
  predicate Order(order: seq<nat>, n: nat) {
    Names(order, n) && forall b: nat | b < n :: b in order
  }

  /** There are no more names than headers. */
  lemma {:induction false} NamesBound(s: seq<nat>, n: nat)
    requires Names(s, n)
    ensures |s| <= n
  {
    NamesIn(s, n, Below(n));
  }

  function Below(n: nat): (s: set<nat>)
    ensures |s| == n && forall k: nat :: k in s <==> k < n
  {
    if n == 0 then {} else Below(n - 1) + {n - 1}
  }

  lemma {:induction false} NamesIn(s: seq<nat>, n: nat, a: set<nat>)
    requires Names(s, n) && forall i | 0 <= i < |s| :: s[i] in a
    ensures |s| <= |a|
  {
    if s != [] {
      var l := |s| - 1;
      NamesIn(s[..l], n, a - {s[l]});
    }
  }

  // ---------- the victim ----------

  /** The first header with least badness among the unheld ones of order[..n]. */
  function Best(hs: seq<Header>, order: seq<nat>, n: nat): (b: Option<nat>)
    requires n <= |order| && forall i | 0 <= i < |order| :: order[i] < |hs|
    ensures b.Some? ==> b.value < |hs|
  {
    if n == 0 then None else
    var b := Best(hs, order, n - 1);
    var h := hs[order[n - 1]];
    if h.count == 0 && (b.None? || Badness(h) < Badness(hs[b.value])) then Some(order[n - 1]) else b
  }

  /** Entry p of the list is unheld, no worse than any unheld one and better than those before it. */
  predicate IsBest(hs: seq<Header>, order: seq<nat>, n: nat, p: nat)
    requires p < n <= |order| && forall i | 0 <= i < |order| :: order[i] < |hs|
  {
    var h := hs[order[p]];
    && h.count == 0
    && (forall i | 0 <= i < n && hs[order[i]].count == 0 :: NoWorse(h, hs[order[i]]))
    && (forall i | 0 <= i < p && hs[order[i]].count == 0 :: !NoWorse(hs[order[i]], h))
  }

  /** None exactly when every buffer is held; otherwise unheld, no worse than any other unheld one,
      and better than all unheld ones before it. */
  lemma {:induction false} BestIsBest(hs: seq<Header>, order: seq<nat>, n: nat)
    requires n <= |order| && forall i | 0 <= i < |order| :: order[i] < |hs|
    ensures var b := Best(hs, order, n);
      && (b.None? <==> forall i | 0 <= i < n :: hs[order[i]].count > 0)
      && (b.Some? ==> exists p :: 0 <= p < n && order[p] == b.value && IsBest(hs, order, n, p))
  {
    if n > 0 {
      BestIsBest(hs, order, n - 1);
      var b, b' := Best(hs, order, n - 1), Best(hs, order, n);
      if b' == b && b.Some? {
        var p :| 0 <= p < n - 1 && order[p] == b.value && IsBest(hs, order, n - 1, p);
        assert IsBest(hs, order, n, p);
      } else if b'.Some? {
        assert IsBest(hs, order, n, n - 1);
      }
    }
  }

  /** Once a clean unlocked victim is found the rest of the list cannot change the choice. */
  lemma {:induction false} BestStops(hs: seq<Header>, order: seq<nat>, m: nat, n: nat)
    requires m <= n <= |order| && forall i | 0 <= i < |order| :: order[i] < |hs|
    requires Best(hs, order, m).Some?
    requires var v := hs[Best(hs, order, m).value]; !v.dirt && !v.lock
    ensures Best(hs, order, n) == Best(hs, order, m)
  {
    if m < n { BestStops(hs, order, m, n - 1); }
  }

  // ---------- the order of the free list ----------

  function IndexOf(order: seq<nat>, b: nat): (p: nat)
    requires b in order
    ensures p < |order| && order[p] == b
  {
    if order[0] == b then 0 else 1 + IndexOf(order[1..], b)
  }

  function RemoveAt(s: seq<nat>, p: nat): seq<nat>
    requires p < |s|
  {
    s[..p] + s[p + 1..]
  }

  /** getblk takes the victim out of the free list and puts it back at the tail. */
  function MoveToTail(order: seq<nat>, b: nat): seq<nat>
    requires b in order
  {
    RemoveAt(order, IndexOf(order, b)) + [b]
  }

  lemma RemoveAtMembers(s: seq<nat>, i: nat, n: nat)
    requires Names(s, n) && i < |s|
    ensures Names(RemoveAt(s, i), n)
    ensures forall k :: k in RemoveAt(s, i) <==> k in s && k != s[i]
  {
    var r := RemoveAt(s, i);
    forall k ensures k in r <==> k in s && k != s[i] {
      if k in s && k != s[i] {
        var j :| 0 <= j < |s| && s[j] == k;
        assert r[if j < i then j else j - 1] == k;
      }
    }
  }

  lemma MoveKeepsOrder(order: seq<nat>, n: nat, b: nat)
    requires Order(order, n) && b < n
    ensures Order(MoveToTail(order, b), n)
  {
    var i := IndexOf(order, b);
    RemoveAtMembers(order, i, n);
    var r := RemoveAt(order, i);
    assert b !in r;
    forall k: nat | k < n ensures k in r + [b] { assert k == b || k in r; }
  }

  // ---------- age ----------

  /** The free list after the buffers bs were assigned, one after the other. */
  function Moves(order: seq<nat>, n: nat, bs: seq<nat>): (r: seq<nat>)
    requires Order(order, n) && forall i | 0 <= i < |bs| :: bs[i] < n
    ensures Order(r, n)
  {
    if bs == [] then order
    else
      var o := Moves(order, n, bs[..|bs| - 1]);
      MoveKeepsOrder(o, n, bs[|bs| - 1]);
      MoveToTail(o, bs[|bs| - 1])
  }

  /** The same, seen from the first assignment. */
  lemma {:induction false} MovesFirst(order: seq<nat>, n: nat, b: nat, bs: seq<nat>)
    requires Order(order, n) && b < n && forall i | 0 <= i < |bs| :: bs[i] < n
    ensures Order(MoveToTail(order, b), n) && Moves(order, n, [b] + bs) == Moves(MoveToTail(order, b), n, bs)
    decreases |bs|
  {
    hide Order, MoveToTail;
    MoveKeepsOrder(order, n, b);
    var all := [b] + bs;
    if bs == [] {
      assert all[..0] == [] && all[0] == b;
    } else {
      var init := bs[..|bs| - 1];
      MovesFirst(order, n, b, init);
      assert all[..|all| - 1] == [b] + init;
    }
  }

  /** When b was last assigned: 0 for never. */
  function LastTime(bs: seq<nat>, b: nat): nat {
    if bs == [] then 0 else if bs[|bs| - 1] == b then |bs| else LastTime(bs[..|bs| - 1], b)
  }

  predicate Before(order: seq<nat>, a: nat, b: nat)
    requires a in order && b in order
  {
    IndexOf(order, a) < IndexOf(order, b)
  }

  lemma IndexUnique(s: seq<nat>, n: nat, i: nat)
    requires Names(s, n) && i < |s|
    ensures IndexOf(s, s[i]) == i
  {
    var j := IndexOf(s, s[i]);
    assert s[j] == s[i];
  }

  lemma MovedLast(order: seq<nat>, n: nat, x: nat, a: nat, b: nat)
    requires Order(order, n) && x < n && a < n && b < n && a != b && Order(MoveToTail(order, x), n)
    ensures Before(MoveToTail(order, x), a, b) <==> b == x || (a != x && Before(order, a, b))
  {
    hide MoveToTail, IndexOf;
    MovedTo(order, n, x, a);
    MovedTo(order, n, x, b);
    assert IndexOf(order, a) != IndexOf(order, b);
  }

  /** Where a header is after header x was moved to the tail. */
  lemma MovedTo(order: seq<nat>, n: nat, x: nat, a: nat)
    requires Order(order, n) && x < n && a < n && Order(MoveToTail(order, x), n)
    ensures var i, p := IndexOf(order, a), IndexOf(order, x);
      IndexOf(MoveToTail(order, x), a) == if a == x then |order| - 1 else if i < p then i else i - 1
    ensures (a == x <==> IndexOf(order, a) == IndexOf(order, x)) && IndexOf(order, a) < |order|
  {
    var i, p, o := IndexOf(order, a), IndexOf(order, x), MoveToTail(order, x);
    var k := if a == x then |order| - 1 else if i < p then i else i - 1;
    assert o[k] == a;
    IndexUnique(o, n, k);
  }

  /** The free list is sorted by the time of the last assignment. */
  lemma {:induction false} SortedByAge(order: seq<nat>, n: nat, bs: seq<nat>, a: nat, b: nat)
    requires Order(order, n) && (forall i | 0 <= i < |bs| :: bs[i] < n) && a < n && b < n && a != b
    ensures Before(Moves(order, n, bs), a, b) <==>
      LastTime(bs, a) < LastTime(bs, b) || (LastTime(bs, a) == LastTime(bs, b) && Before(order, a, b))
  {
    if bs != [] {
      var init, x := bs[..|bs| - 1], bs[|bs| - 1];
      SortedByAge(order, n, init, a, b);
      LastTimeBound(init, a);
      LastTimeBound(init, b);
      var o := Moves(order, n, init);
      MoveKeepsOrder(o, n, x);
      MovedLast(o, n, x, a, b);
    }
  }

  lemma {:induction false} LastTimeBound(bs: seq<nat>, b: nat)
    ensures LastTime(bs, b) <= |bs|
  {
    if bs != [] { LastTimeBound(bs[..|bs| - 1], b); }
  }

  /** Among equally good victims getblk takes the one assigned longest ago. */
  lemma OldestFirst(hs: seq<Header>, order: seq<nat>, bs: seq<nat>, v: nat, w: nat)
    requires Order(order, |hs|) && (forall i | 0 <= i < |bs| :: bs[i] < |hs|) && v < |hs| && w < |hs| && v != w
    requires Best(hs, Moves(order, |hs|, bs), |Moves(order, |hs|, bs)|) == Some(v)
    requires hs[w].count == 0 && AsGood(hs[w], hs[v])
    ensures LastTime(bs, v) < LastTime(bs, w) || (LastTime(bs, v) == LastTime(bs, w) && Before(order, v, w))
  {
    hide Moves, Best, LastTime;
    BestIsFirst(hs, Moves(order, |hs|, bs), v, w);
    SortedByAge(order, |hs|, bs, v, w);
  }

  /** The victim stands before any other that is as good. */
  lemma BestIsFirst(hs: seq<Header>, o: seq<nat>, v: nat, w: nat)
    requires Order(o, |hs|) && v < |hs| && w < |hs| && v != w && Best(hs, o, |o|) == Some(v)
    requires hs[w].count == 0 && AsGood(hs[w], hs[v])
    ensures Before(o, v, w)
  {
    BestIsBest(hs, o, |o|);
    hide Best, NoWorse, AsGood;
    var p :| 0 <= p < |o| && o[p] == v && IsBest(hs, o, |o|, p);
    IndexUnique(o, |hs|, p);
    AheadOfEqual(hs, o, p, IndexOf(o, w));
  }

  lemma AheadOfEqual(hs: seq<Header>, o: seq<nat>, p: nat, i: nat)
    requires p < |o| && i < |o| && (forall k | 0 <= k < |o| :: o[k] < |hs|) && IsBest(hs, o, |o|, p)
    requires hs[o[i]].count == 0 && AsGood(hs[o[i]], hs[o[p]])
    ensures p <= i
  {
  }
}
