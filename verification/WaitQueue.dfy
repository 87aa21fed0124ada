/** A wait queue of kernel/process.c: a head pointer, and the pointer that each sleeper saved in its
    local `tmp`. Slot numbers stand for processes; slot 0 does not sleep. */
module WaitQueue {

  datatype Ptr = Null | To(p: nat)

  /** `saved` holds the tmp of every process inside sleepOn, `running` the slots in TASK_RUNNING. */
  datatype Queue = Queue(head: Ptr, saved: map<nat, Ptr>, running: set<nat>)

  /** A process calls sleepOn and is switched away; it comes back from schedule; wakeUp. */
  datatype Event = Sleep(p: nat) | Resume(p: nat) | Wake

  predicate Enabled(q: Queue, e: Event) {
    match e
    case Sleep(p) => p !in q.saved
    case Resume(p) => p in q.saved && p in q.running
    case Wake => true
  }

  function Ready(t: Ptr): set<nat> { if t.To? then {t.p} else {} }

  function Step(q: Queue, e: Event): Queue
    requires Enabled(q, e)
  {
    match e
    case Sleep(p) => Queue(To(p), q.saved[p := q.head], q.running - {p})
    case Resume(p) => Queue(q.saved[p], q.saved - {p}, q.running + Ready(q.saved[p]))
    case Wake => Queue(Null, q.saved, q.running + Ready(q.head))
  }

  predicate Legal(q: Queue, es: seq<Event>)
    decreases |es|
  {
    es == [] || (Enabled(q, es[0]) && Legal(Step(q, es[0]), es[1..]))
  }

  function Run(q: Queue, es: seq<Event>): Queue
    requires Legal(q, es)
    decreases |es|
  {
    if es == [] then q else Run(Step(q, es[0]), es[1..])
  }

  // ---------- a queue at rest, and one being drained ----------

  predicate Distinct(l: seq<nat>) { forall i, j | 0 <= i < j < |l| :: l[i] != l[j] }

  function At(l: seq<nat>, i: nat): Ptr { if i < |l| then To(l[i]) else Null }

  predicate Link(saved: map<nat, Ptr>, l: seq<nat>, i: nat)
    requires i < |l|
  {
    l[i] in saved && saved[l[i]] == At(l, i + 1)
  }

  /** All of l sleep, each with the next one saved, the last with NULL. */
  predicate Chain(saved: map<nat, Ptr>, l: seq<nat>) {
    Distinct(l) && forall i: nat | i < |l| :: Link(saved, l, i)
  }

  /** What l[0] and whoever is not in l do leaves the rest a chain. */
  lemma ChainTail(q: Queue, q': Queue, l: seq<nat>)
    requires Chain(q.saved, l) && l != []
    requires forall p | p in q.saved && p != l[0] :: p in q'.saved && q'.saved[p] == q.saved[p]
    ensures Chain(q'.saved, l[1..])
  {
    var l' := l[1..];
    forall i: nat | i < |l'| ensures Link(q'.saved, l', i) {
      assert l'[i] == l[i + 1] && l[i + 1] != l[0];
      assert Link(q.saved, l, i + 1);
    }
  }

  lemma ChainPush(q: Queue, l: seq<nat>, p: nat)
    requires Chain(q.saved, l) && p !in q.saved && q.head == At(l, 0)
    ensures Chain(Step(q, Sleep(p)).saved, [p] + l)
  {
    var q', l' := Step(q, Sleep(p)), [p] + l;
    forall i: nat | i < |l'| ensures Link(q'.saved, l', i) && (i > 0 ==> l'[i] != p && l'[i] == l[i - 1]) {
      if i > 0 { assert Link(q.saved, l, i - 1); }
    }
  }

  /** The processes asleep are l, latest first; nobody has woken them. */
  predicate Quiet(q: Queue, l: seq<nat>) {
    && Chain(q.saved, l) && q.head == At(l, 0)
    && (forall p | p in q.saved :: p in l) && (forall p | p in l :: p !in q.running)
  }

  /** l[0] has been woken and will wake the next; nobody else is asleep. */
  predicate Draining(q: Queue, l: seq<nat>) {
    && Chain(q.saved, l) && l != [] && (q.head == Null || q.head == To(l[0]))
    && (forall p | p in q.saved :: p in l) && (forall p | p in l :: p in q.running <==> p == l[0])
  }

  lemma SleepQuiet(q: Queue, l: seq<nat>, p: nat)
    requires Quiet(q, l) && Enabled(q, Sleep(p))
    ensures Quiet(Step(q, Sleep(p)), [p] + l)
  {
    ChainPush(q, l, p);
    assert forall x | x in [p] + l :: x == p || x in l;
  }

  function Sleeps(ps: seq<nat>): (es: seq<Event>)
    ensures |es| == |ps| && forall i | 0 <= i < |ps| :: es[i] == Sleep(ps[i])
  {
    seq(|ps|, i requires 0 <= i < |ps| => Sleep(ps[i]))
  }

  function Reverse(ps: seq<nat>): seq<nat> {
    if ps == [] then [] else Reverse(ps[1..]) + [ps[0]]
  }

  /** Processes that go to sleep one after the other end up in reverse order of arrival. */
  lemma {:induction false} Arrivals(q: Queue, l: seq<nat>, ps: seq<nat>)
    requires Quiet(q, l) && Legal(q, Sleeps(ps))
    ensures Quiet(Run(q, Sleeps(ps)), Reverse(ps) + l)
    decreases |ps|
  {
    hide Quiet;
    if ps == [] {
      assert Reverse(ps) + l == l;
    } else {
      SleepQuiet(q, l, ps[0]);
      assert Sleeps(ps)[1..] == Sleeps(ps[1..]);
      Arrivals(Step(q, Sleep(ps[0])), [ps[0]] + l, ps[1..]);
      assert Reverse(ps[1..]) + ([ps[0]] + l) == Reverse(ps) + l;
    }
  }

  predicate Drained(q: Queue, l: seq<nat>) { if l == [] then Quiet(q, []) else Draining(q, l) }

  lemma WakeQuiet(q: Queue, l: seq<nat>)
    requires Quiet(q, l)
    ensures Drained(Step(q, Wake), l)
  {
    if l == [] { assert forall p | p in q.saved :: p in l; }
  }

  lemma DrainResume(q: Queue, l: seq<nat>, p: nat)
    requires Draining(q, l) && Enabled(q, Resume(p))
    ensures p == l[0] && Drained(Step(q, Resume(p)), l[1..])
  {
    var q' := Step(q, Resume(p));
    assert p == l[0] && Link(q.saved, l, 0);
    ChainTail(q, q', l);
    assert forall x | x in l[1..] :: x in l && x != l[0];
    hide Chain;
    assert forall x | x in l :: x == l[0] || x in l[1..];
    assert l[1..] != [] ==> l[1..][0] == l[1];
  }

  /** While a queue drains, an extra wake-up changes nothing that matters, and the only process
      that can come back is the first. */
  lemma DrainStep(q: Queue, l: seq<nat>, e: Event)
    requires Drained(q, l) && Enabled(q, e) && !e.Sleep?
    ensures e.Wake? ==> Drained(Step(q, e), l)
    ensures e.Resume? ==> l != [] && e.p == l[0] && Drained(Step(q, e), l[1..])
  {
    hide Chain;
    if e.Resume? {
      assert l != [];
      DrainResume(q, l, e.p);
    }
  }

  function Resumed(es: seq<Event>): seq<nat> {
    if es == [] then [] else (if es[0].Resume? then [es[0].p] else []) + Resumed(es[1..])
  }

  predicate NoSleep(es: seq<Event>) { forall i | 0 <= i < |es| :: !es[i].Sleep? }

  lemma {:induction false} DrainRun(q: Queue, l: seq<nat>, es: seq<Event>)
    requires Drained(q, l) && Legal(q, es) && NoSleep(es)
    ensures Resumed(es) <= l && Drained(Run(q, es), l[|Resumed(es)|..])
    decreases |es|
  {
    hide Drained, Step;
    if es != [] {
      DrainStep(q, l, es[0]);
      var l' := if es[0].Resume? then l[1..] else l;
      DrainRun(Step(q, es[0]), l', es[1..]);
      assert l'[|Resumed(es[1..])|..] == l[|Resumed(es)|..];
    } else {
      assert l[0..] == l;
    }
  }

  /** One wake-up drains the queue: the sleepers come back in reverse order of arrival, whatever
      extra wake-ups happen. When none can come back any more, all have, every one of them is
      runnable, and the head is NULL. */
  lemma WakeDrains(q: Queue, l: seq<nat>, es: seq<Event>)
    requires Quiet(q, l) && Legal(q, [Wake] + es) && NoSleep(es)
    ensures var q' := Run(q, [Wake] + es);
      && Resumed(es) <= l && (forall p | p in Resumed(es) :: p in q'.running)
      && (Resumed(es) == l <==> forall p :: !Enabled(q', Resume(p)))
      && (Resumed(es) == l ==> q'.head == Null && q'.saved == map[])
  {
    var q1, q' := Step(q, Wake), Run(q, [Wake] + es);
    assert ([Wake] + es)[1..] == es;
    WakeQuiet(q, l);
    DrainRun(q1, l, es);
    RunningStays(q1, es);
    var rest := l[|Resumed(es)|..];
    if rest != [] {
      assert Link(q'.saved, rest, 0);
      assert Enabled(q', Resume(rest[0]));
    }
  }

  /** Without a sleep nobody stops running, and whoever comes back runs. */
  lemma {:induction false} RunningStays(q: Queue, es: seq<Event>)
    requires Legal(q, es) && NoSleep(es)
    ensures q.running <= Run(q, es).running && forall p | p in Resumed(es) :: p in Run(q, es).running
    decreases |es|
  {
    if es != [] { RunningStays(Step(q, es[0]), es[1..]); }
  }

  // ---------- sleeping while a queue drains ----------

  /** None of d runs, and nothing outside d leads to it. */
  predicate Lost(q: Queue, d: set<nat>) {
    && (forall p | p in d :: p in q.saved && p !in q.running && q.head != To(p))
    && (forall x, p | x in q.saved && x !in d && p in d :: q.saved[x] != To(p))
  }

  /** Whatever sleeps, wake-ups and returns follow, a lost process sleeps for ever. */
  lemma {:induction false} LostForever(q: Queue, d: set<nat>, es: seq<Event>)
    requires Lost(q, d) && Legal(q, es)
    ensures Lost(Run(q, es), d) && forall p | p in d :: p !in Resumed(es)
    decreases |es|
  {
    if es != [] {
      LostStep(q, d, es[0]);
      LostForever(Step(q, es[0]), d, es[1..]);
    }
  }

  lemma LostStep(q: Queue, d: set<nat>, e: Event)
    requires Lost(q, d) && Enabled(q, e)
    ensures Lost(Step(q, e), d)
  {
  }

  /** c[0] runs and will wake c[1], and so on. */
  predicate Owed(q: Queue, c: seq<nat>) {
    && c != [] && Distinct(c) && (forall i | 0 <= i < |c| :: c[i] in q.saved)
    && c[0] in q.running && forall i | 0 <= i < |c| - 1 :: q.saved[c[i]] == To(c[i + 1])
  }

  /** Sleeps, wake-ups and returns of others cannot take away the wake-up that is owed to the last
      of c: each event leaves it owed through no longer a chain, a shorter one if it brought a
      process of the chain back, until the last itself is back. */
  lemma OwedStep(q: Queue, c: seq<nat>, e: Event) returns (d: seq<nat>)
    requires Owed(q, c) && Enabled(q, e)
    ensures e != Resume(c[|c| - 1]) ==> Owed(Step(q, e), d) && d[|d| - 1] == c[|c| - 1]
    ensures |d| <= |c| && (e.Resume? && e.p in c ==> |d| < |c|)
  {
    d := c;
    if e.Resume? && e.p in c {
      var i :| 0 <= i < |c| && c[i] == e.p;
      d := c[i + 1..];
      if d != [] { assert d[0] == c[i + 1]; }
    }
  }

  /** Over every run, the last of c comes back, or it is still owed its wake-up and some process of
      the chain to it can come back at once. */
  lemma {:induction false} OwedRun(q: Queue, c: seq<nat>, es: seq<Event>) returns (d: seq<nat>)
    requires Owed(q, c) && Legal(q, es)
    ensures c[|c| - 1] !in Resumed(es) ==>
      && Owed(Run(q, es), d) && d[|d| - 1] == c[|c| - 1] && |d| <= |c|
      && Enabled(Run(q, es), Resume(d[0]))
    decreases |es|
  {
    d := c;
    if es != [] && es[0] != Resume(c[|c| - 1]) {
      var c' := OwedStep(q, c, es[0]);
      d := OwedRun(Step(q, es[0]), c', es[1..]);
    }
  }

  /** l drains while m, latest first, have gone to sleep on top of it. */
  predicate Late(q: Queue, m: seq<nat>, l: seq<nat>) {
    && m != [] && Distinct(m) && (forall x | x in m :: x !in l) && q.head == To(m[0])
    && (forall p | p in m :: p in q.saved && p !in q.running)
    && (forall i | 0 <= i < |m| - 1 :: q.saved[m[i]] == To(m[i + 1]))
    && (forall x | x in q.saved :: x in m || x in l)
    && (forall x | x in l :: x in q.running <==> x == l[0])
    && Chain(q.saved, l)
  }

  lemma LateSleep(q: Queue, m: seq<nat>, l: seq<nat>, p: nat)
    requires Enabled(q, Sleep(p)) && if m == [] then Draining(q, l) else Late(q, m, l)
    ensures Late(Step(q, Sleep(p)), [p] + m, l)
  {
    var q', m' := Step(q, Sleep(p)), [p] + m;
    assert forall i | 0 < i < |m'| :: m'[i] == m[i - 1] && m[i - 1] in m;
    assert forall x | x in m' :: x == p || x in m;
    forall i: nat | i < |l| ensures Link(q'.saved, l, i) {
      assert Link(q.saved, l, i) && l[i] in l;
    }
    forall x | x in l ensures x != p {
      var i: nat :| i < |l| && l[i] == x;
      assert Link(q.saved, l, i);
    }
  }

  /** What decides over those who go to sleep during a drain is the next event that is not a sleep:
      a wake-up starts a second drain that reaches them all, a return overwrites the head and loses
      them all. With no drain going on no return is possible, so nobody is lost. */
  lemma LateFate(q: Queue, m: seq<nat>, l: seq<nat>, e: Event)
    requires Late(q, m, l) && Enabled(q, e) && !e.Sleep?
    ensures e.Wake? ==> forall k | 1 <= k <= |m| :: Owed(Step(q, e), m[..k])
    ensures e.Resume? ==> l != [] && e.p == l[0] && Lost(Step(q, e), set p | p in m)
  {
    assert forall i: nat | i < |l| :: l[i] in l;
    if e.Resume? {
      assert e.p in l;
      forall x | x in l ensures x in q.saved && (q.saved[x].To? ==> q.saved[x].p in l) {
        var i: nat :| i < |l| && l[i] == x;
        assert Link(q.saved, l, i);
      }
    } else {
      assert forall i | 0 <= i < |m| :: m[i] in m;
    }
  }

  /** A queue on which it happens: 1 sleeps and is woken, 2 goes to sleep before 1 has come back. */
  lemma LateSleeperLost()
    ensures var q, es := Queue(Null, map[], {1, 2}), [Sleep(1), Wake, Sleep(2), Resume(1)];
      Legal(q, es) && Lost(Run(q, es), {2})
  {
    var q, es := Queue(Null, map[], {1, 2}), [Sleep(1), Wake, Sleep(2), Resume(1)];
    var q1 := Step(q, es[0]);
    var q2 := Step(q1, es[1]);
    var q3 := Step(q2, es[2]);
    assert q3 == Queue(To(2), map[1 := Null, 2 := Null], {1});
    var q4 := Step(q3, es[3]);
    assert q4 == Queue(Null, map[2 := Null], {1});
    assert es[1..][0] == Wake && es[1..][1..][0] == Sleep(2) && es[1..][1..][1..] == [Resume(1)];
    assert [Resume(1)][1..] == [];
    assert Legal(q4, []) && Run(q4, []) == q4;
    assert Legal(q3, [Resume(1)]) && Run(q3, [Resume(1)]) == q4;
    assert Legal(q2, es[1..][1..]) && Run(q2, es[1..][1..]) == q4;
    assert Legal(q1, es[1..]) && Run(q1, es[1..]) == q4;
  }
}
