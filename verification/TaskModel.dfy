/** The task table, pids and the counter-driven scheduler of kernel/process.c and kernel/time.c. */
module TaskModel {
  import opened Limits

  const WORD := 0x1_0000_0000     // pids are compared as unsigned 32-bit words

  datatype State = Running | Interruptible | Uninterruptible | Zombie | Stopped

  datatype Task = Task(pid: nat, state: State, counter: int, priority: nat)

  /** An entry of TASKS: NULL or a process. */
  datatype Slot = Free | Busy(t: Task)

  predicate Runnable(s: Slot) { s.Busy? && s.t.state == Running }

  /** Signed 32-bit decrement. */
  function Dec32(c: int): int { if c == -0x8000_0000 then 0x7fff_ffff else c - 1 }

  function WithCounter(s: Slot, c: int): Slot
    requires s.Busy?
  {
    Busy(s.t.(counter := c))
  }

  // ---------- schedule ----------

  /** The scan from slot i on, with the best counter c of slot `next` so far. */
  function Scan(ts: seq<Slot>, i: nat, c: int, next: nat): (int, nat)
    requires i <= |ts|
    decreases |ts| - i
  {
    if i == |ts| then (c, next)
    else if Runnable(ts[i]) && ts[i].t.counter > c then Scan(ts, i + 1, ts[i].t.counter, i)
    else Scan(ts, i + 1, c, next)
  }

  function Pick(ts: seq<Slot>): (int, nat)
    requires |ts| == NR_TASKS
  {
    Scan(ts, 1, -1, 0)
  }

  /** Every task but slot 0 gets its priority as counter. */
  function Refill(ts: seq<Slot>): (r: seq<Slot>)
    ensures |r| == |ts|
    ensures forall i | 0 <= i < |ts| ::
              r[i] == if i > 0 && ts[i].Busy? then WithCounter(ts[i], ts[i].t.priority) else ts[i]
  {
    seq(|ts|, i requires 0 <= i < |ts| => if i > 0 && ts[i].Busy? then WithCounter(ts[i], ts[i].t.priority) else ts[i])
  }

  /** The table and the chosen slot; the loop of schedule goes round at most twice (`StopsInTime`). */
  function Schedule(ts: seq<Slot>): (seq<Slot>, nat)
    requires |ts| == NR_TASKS
  {
    var (c, next) := Pick(ts);
    if c != 0 then (ts, next) else (Refill(ts), Pick(Refill(ts)).1)
  }

  /** Counters of the tasks from 1 on lie between 0 and a positive priority. */
  predicate Good(ts: seq<Slot>) {
    && |ts| == NR_TASKS && ts[0].Busy?
    && (forall i | 0 <= i < NR_TASKS && ts[i].Busy? :: ts[i].t.priority > 0)
    && (forall i | 1 <= i < NR_TASKS && ts[i].Busy? :: 0 <= ts[i].t.counter <= ts[i].t.priority)
  }

  /** Slot n is runnable, no runnable slot has a greater counter, and none before it as great a one. */
  predicate Greatest(ts: seq<Slot>, n: nat) {
    && 1 <= n < |ts| && Runnable(ts[n])
    && (forall j | 1 <= j < |ts| && Runnable(ts[j]) :: ts[j].t.counter <= ts[n].t.counter)
    && (forall j | 1 <= j < n && Runnable(ts[j]) :: ts[j].t.counter < ts[n].t.counter)
  }

  predicate Idle(ts: seq<Slot>) { forall j | 1 <= j < |ts| :: !Runnable(ts[j]) }

  lemma {:induction false} ScanFinds(ts: seq<Slot>, i: nat, c: int, next: nat)
    requires Good(ts) && 1 <= i <= NR_TASKS && c >= -1
    requires if c == -1 then next == 0 && forall j | 1 <= j < i :: !Runnable(ts[j])
             else 1 <= next < i && Runnable(ts[next]) && ts[next].t.counter == c
                  && (forall j | 1 <= j < i && Runnable(ts[j]) :: ts[j].t.counter <= c)
                  && (forall j | 1 <= j < next && Runnable(ts[j]) :: ts[j].t.counter < c)
    ensures var (d, n) := Scan(ts, i, c, next);
      if d == -1 then n == 0 && Idle(ts) else d >= 0 && Greatest(ts, n) && ts[n].t.counter == d
    decreases NR_TASKS - i
  {
    if i < NR_TASKS {
      if Runnable(ts[i]) && ts[i].t.counter > c { ScanFinds(ts, i + 1, ts[i].t.counter, i); }
      else { ScanFinds(ts, i + 1, c, next); }
    }
  }

  /** All runnable tasks have used up their time. */
  predicate Exhausted(ts: seq<Slot>) {
    !Idle(ts) && forall j | 1 <= j < |ts| && Runnable(ts[j]) :: ts[j].t.counter == 0
  }

  lemma RefillGood(ts: seq<Slot>)
    requires Good(ts)
    ensures Good(Refill(ts)) && forall j | 0 <= j < NR_TASKS :: Runnable(Refill(ts)[j]) == Runnable(ts[j])
  {
  }

  /** schedule refills exactly when every runnable task is at 0; it then takes slot 0 if nothing is
      runnable, otherwise the lowest-numbered runnable task with the greatest counter, which is
      positive. */
  lemma ScheduleOk(ts: seq<Slot>)
    requires Good(ts)
    ensures var (r, n) := Schedule(ts);
      && Good(r) && r == (if Exhausted(ts) then Refill(ts) else ts)
      && (if Idle(ts) then n == 0 else Greatest(r, n) && r[n].t.counter > 0)
  {
    ScanFinds(ts, 1, -1, 0);
    var (c, next) := Pick(ts);
    if c == 0 {
      RefillGood(ts);
      ScanFinds(Refill(ts), 1, -1, 0);
      assert Runnable(Refill(ts)[next]);
      assert Exhausted(ts);
    }
  }

  /** After one refill the scan finds a positive counter, so the loop ends. */
  lemma StopsInTime(ts: seq<Slot>)
    requires Good(ts) && Pick(ts).0 == 0
    ensures Pick(Refill(ts)).0 > 0
  {
    ScanFinds(ts, 1, -1, 0);
    RefillGood(ts);
    ScanFinds(Refill(ts), 1, -1, 0);
    assert Runnable(Refill(ts)[Pick(ts).1]);
  }

  // ---------- pids ----------

  predicate Used(ts: seq<Slot>, v: nat) {
    exists i :: 0 <= i < |ts| && ts[i].Busy? && ts[i].t.pid == v
  }

  function Pids(ts: seq<Slot>): (s: set<nat>)
    ensures |s| <= |ts| && forall v :: v in s <==> Used(ts, v)
  {
    if ts == [] then {} else
    var s := Pids(ts[..|ts| - 1]);
    var l := ts[|ts| - 1];
    assert forall v :: Used(ts, v) <==> Used(ts[..|ts| - 1], v) || (l.Busy? && l.t.pid == v);
    if l.Busy? then s + {l.t.pid} else s
  }

  /** The word j steps after v; ++last_pid wraps around. */
  function Nth(v: nat, j: nat): nat { if v + j < WORD then v + j else v + j - WORD }

  /** The first of v, v + 1, ... that no live task has, within k restarts of the search. */
  function FirstUnused(ts: seq<Slot>, v: nat, k: nat): nat
    decreases k
  {
    if k == 0 || !Used(ts, v) then v else FirstUnused(ts, Nth(v, 1), k - 1)
  }

  /** k successive words from v on are k different words. */
  function Span(v: nat, k: nat): (s: set<nat>)
    requires k <= WORD && v < WORD
    ensures |s| == k && forall w :: w in s <==> exists j: nat :: j < k && w == Nth(v, j)
  {
    if k == 0 then {} else Span(v, k - 1) + {Nth(v, k - 1)}
  }

  lemma {:induction false} Smaller(a: set<nat>, b: set<nat>)
    requires a <= b
    ensures |a| <= |b|
  {
    if x :| x in a { Smaller(a - {x}, b - {x}); }
  }

  /** The search passes over no more pids than there are slots. */
  lemma Pigeon(ts: seq<Slot>, v: nat, k: nat)
    requires k <= WORD && v < WORD && forall j: nat | j < k :: Used(ts, Nth(v, j))
    ensures k <= |ts|
  {
    Smaller(Span(v, k), Pids(ts));
  }

  lemma {:induction false} FirstUnusedFrom(ts: seq<Slot>, v: nat, j: nat, k: nat) returns (n: nat)
    requires v < WORD && j + k <= |ts| < WORD && forall l: nat | l < j :: Used(ts, Nth(v, l))
    ensures j <= n <= j + k && FirstUnused(ts, Nth(v, j), k) == Nth(v, n)
    ensures forall l: nat | l < n :: Used(ts, Nth(v, l))
    ensures n < j + k ==> !Used(ts, Nth(v, n))
    decreases k
  {
    if k == 0 || !Used(ts, Nth(v, j)) {
      n := j;
    } else {
      assert Nth(Nth(v, j), 1) == Nth(v, j + 1);
      n := FirstUnusedFrom(ts, v, j + 1, k - 1);
    }
  }

  /** The search ends, after at most as many restarts as there are slots: it has passed over used
      pids only and found one that no live task has, wrap-around included. */
  lemma FreshPid(ts: seq<Slot>, v: nat) returns (n: nat)
    requires |ts| == NR_TASKS && v < WORD
    ensures n <= NR_TASKS && FirstUnused(ts, v, NR_TASKS) == Nth(v, n) && !Used(ts, Nth(v, n))
    ensures forall l: nat | l < n :: Used(ts, Nth(v, l))
  {
    n := FirstUnusedFrom(ts, v, 0, NR_TASKS);
    if n == NR_TASKS && Used(ts, Nth(v, n)) {
      Pigeon(ts, v, n + 1);
    }
  }
}
