/** Runs of the timer, of sleeps and wake-ups and of forks: what the scheduler keeps, and how long
    a runnable task can wait. */
module TaskRuns {
  import opened Limits
  import opened TaskModel
  import D = Descriptors

  /** TASKS, the slot of CURRENT, last_pid and the GDT. */
  datatype Sys = Sys(ts: seq<Slot>, cur: nat, last: nat, gdt: D.Gdt)

  /** A timer interrupt; the current task gives up the processor in state `st` (sysPause, sleepOn);
      a call of schedule at the end of a system call; a wake-up of slot i; a fork, for which memory
      is found or not. */
  datatype Event = Tick | Sleep(st: State) | Resched | Wake(i: nat) | Fork(memory: bool)

  predicate Enabled(s: Sys, e: Event) {
    e.Wake? ==> e.i < |s.ts| && s.ts[e.i].Busy?
  }

  function WithState(s: Slot, st: State): Slot
    requires s.Busy?
  {
    Busy(s.t.(state := st))
  }

  function Switch(s: Sys): Sys
    requires |s.ts| == NR_TASKS
  {
    var (ts, next) := Schedule(s.ts);
    s.(ts := ts, cur := next)
  }

  /** The lowest free slot from i on, or |ts| for the -1 of findEmptyProcess. */
  function FreeSlot(ts: seq<Slot>, i: nat): (n: nat)
    requires i <= |ts|
    ensures i <= n <= |ts| && (n < |ts| ==> ts[n].Free?) && forall k | i <= k < n :: ts[k].Busy?
    decreases |ts| - i
  {
    if i == |ts| || ts[i].Free? then i else FreeSlot(ts, i + 1)
  }

  /** The child of task t: its time slice is its priority, and it can run at once. */
  function Child(t: Task, pid: nat): Task { t.(pid := pid, state := Running, counter := t.priority) }

  /** A pid as the caller of fork gets it: a signed 32-bit word. */
  function Signed(v: nat): int { if v < 0x8000_0000 then v else v - WORD }

  predicate CanFork(s: Sys, memory: bool)
    requires |s.ts| == NR_TASKS
  {
    FreeSlot(s.ts, 0) < NR_TASKS && memory
  }

  /** The result is the child's pid, -1 when no slot or no memory is left; last_pid moves on anyway. */
  function ForkTask(s: Sys, memory: bool): (Sys, int)
    requires |s.ts| == NR_TASKS && s.cur < NR_TASKS && s.ts[s.cur].Busy?
  {
    var pid := FirstUnused(s.ts, Nth(s.last, 1), NR_TASKS);
    var nr := FreeSlot(s.ts, 0);
    var s1 := s.(last := pid);
    if CanFork(s, memory)
    then (s1.(ts := s.ts[nr := Busy(Child(s.ts[s.cur].t, pid))], gdt := D.Install(s.gdt, nr)), Signed(pid))
    else (s1, -1)
  }

  function Step(s: Sys, e: Event): Sys
    requires |s.ts| == NR_TASKS && s.cur < NR_TASKS && s.ts[s.cur].Busy? && Enabled(s, e)
  {
    match e
    case Tick =>
      var c := Dec32(s.ts[s.cur].t.counter);
      var s1 := s.(ts := s.ts[s.cur := WithCounter(s.ts[s.cur], c)]);
      if c > 0 then s1 else Switch(s1)
    case Sleep(st) => Switch(s.(ts := s.ts[s.cur := WithState(s.ts[s.cur], st)]))
    case Resched => Switch(s)
    case Wake(i) => s.(ts := s.ts[i := WithState(s.ts[i], Running)])
    case Fork(memory) => ForkTask(s, memory).0
  }

  // ---------- what each event does ----------

  /** r is the table ts after a call of schedule: the counters are refilled exactly when all runnable
      tasks have used up theirs, and then the lowest-numbered runnable task with the greatest counter
      goes on, or slot 0 if there is none. */
  predicate Chosen(ts: seq<Slot>, r: Sys)
    requires |ts| == NR_TASKS
  {
    && |r.ts| == NR_TASKS
    && (if Exhausted(ts)
        then forall i | 0 <= i < NR_TASKS :: r.ts[i] ==
               if i > 0 && ts[i].Busy?
               then Busy(Task(ts[i].t.pid, ts[i].t.state, ts[i].t.priority, ts[i].t.priority)) else ts[i]
        else r.ts == ts)
    && (if Idle(ts) then r.cur == 0 else Greatest(r.ts, r.cur) && r.ts[r.cur].t.counter > 0)
  }

  lemma SwitchOk(s: Sys)
    requires Good(s.ts)
    ensures Chosen(s.ts, Switch(s)) && Switch(s).last == s.last && Switch(s).gdt == s.gdt
  {
    ScheduleOk(s.ts);
  }

  /** A tick takes one from the current counter and nothing else, and the task goes on as long as it
      has time left. Only slot 0 can have the least counter there is, and then it wraps around. */
  lemma TickOk(s: Sys)
    requires Inv(s)
    ensures var t := s.ts[s.cur].t; var r := Step(s, Tick);
      && (t.counter > 1 ==> r == s.(ts := s.ts[s.cur := Busy(Task(t.pid, t.state, t.counter - 1, t.priority))]))
      && (-0x8000_0000 < t.counter <= 1 ==>
            && Chosen(s.ts[s.cur := Busy(Task(t.pid, t.state, t.counter - 1, t.priority))], r)
            && r.last == s.last && r.gdt == s.gdt)
      && (t.counter == -0x8000_0000 ==>
            r == s.(ts := s.ts[s.cur := Busy(Task(t.pid, t.state, 0x7fff_ffff, t.priority))]))
  {
    hide Described, DistinctPids, Schedule, Chosen;
    var t := s.ts[s.cur].t;
    if t.counter <= 1 {
      SwitchOk(s.(ts := s.ts[s.cur := Busy(Task(t.pid, t.state, Dec32(t.counter), t.priority))]));
    }
  }

  /** Who gives up the processor is in the state it said, and schedule chooses from the table so
      changed; a call of schedule alone chooses from the table as it is; a wake-up switches nothing. */
  lemma OthersOk(s: Sys, st: State, i: nat)
    requires Inv(s) && Enabled(s, Wake(i))
    ensures var t := s.ts[s.cur].t;
      Chosen(s.ts[s.cur := Busy(Task(t.pid, st, t.counter, t.priority))], Step(s, Sleep(st)))
    ensures Chosen(s.ts, Step(s, Resched))
    ensures Step(s, Sleep(st)).last == Step(s, Resched).last == s.last
    ensures Step(s, Sleep(st)).gdt == Step(s, Resched).gdt == s.gdt
    ensures var t := s.ts[i].t;
      Step(s, Wake(i)) == s.(ts := s.ts[i := Busy(Task(t.pid, Running, t.counter, t.priority))])
  {
    hide Described, DistinctPids, Schedule, Chosen;
    var t := s.ts[s.cur].t;
    SwitchOk(s.(ts := s.ts[s.cur := Busy(Task(t.pid, st, t.counter, t.priority))]));
    SwitchOk(s);
  }

  // ---------- what every run keeps ----------

  predicate DistinctPids(ts: seq<Slot>) {
    forall i, j | 0 <= i < j < |ts| && ts[i].Busy? && ts[j].Busy? :: ts[i].t.pid != ts[j].t.pid
  }

  /** Slots fill up from below, since no task ever leaves. Every task has its own descriptors, and
      what was stored past the GDT are those of the last two slots. */
  predicate Described(ts: seq<Slot>, g: D.Gdt)
    requires |ts| == NR_TASKS
  {
    && |g.descs| == D.GDT_SIZE
    && (forall i, j | 0 <= i < j < NR_TASKS && ts[j].Busy? :: ts[i].Busy?)
    && (forall i: nat | i < NR_TASKS && ts[i].Busy? :: D.Own(g, i))
    && g.beyond == (if ts[62].Busy? then {128} else {}) + (if ts[63].Busy? then {129, 130} else {})
  }

  /** Pids tell the live tasks apart, and a current task other than slot 0 can run and has time left. */
  predicate Inv(s: Sys) {
    && Good(s.ts) && s.last < WORD && DistinctPids(s.ts) && Described(s.ts, s.gdt)
    && s.cur < NR_TASKS && s.ts[s.cur].Busy?
    && (s.cur >= 1 ==> Runnable(s.ts[s.cur]) && s.ts[s.cur].t.counter >= 1)
  }

  /** Slot 0 with a 15-tick slice, pid 0 and its descriptors, as initSchedule leaves it. */
  predicate Initial(s: Sys) {
    && |s.ts| == NR_TASKS && s.cur == 0 && s.last == 0 && s.ts[0] == Busy(Task(0, Running, 15, 15))
    && (forall i | 1 <= i < NR_TASKS :: s.ts[i].Free?)
    && |s.gdt.descs| == D.GDT_SIZE && D.Own(s.gdt, 0) && s.gdt.beyond == {}
  }

  /** Only which slots are busy matters. */
  lemma DescribedKept(ts: seq<Slot>, ts': seq<Slot>, g: D.Gdt)
    requires |ts| == |ts'| == NR_TASKS && Described(ts, g)
    requires forall i | 0 <= i < NR_TASKS :: ts'[i].Busy? == ts[i].Busy?
    ensures Described(ts', g)
  {
  }

  lemma SwitchInv(s: Sys)
    requires Good(s.ts) && DistinctPids(s.ts) && s.last < WORD && Described(s.ts, s.gdt)
    ensures Inv(Switch(s))
  {
    hide Described;
    ScheduleOk(s.ts);
    DescribedKept(s.ts, Switch(s).ts, s.gdt);
  }

  /** What becomes of a child: it can run, and its time slice is the priority it inherits. */
  function Newborn(pid: nat, priority: nat): Task { Task(pid, Running, priority, priority) }

  /** A fork that succeeds fills the lowest free slot with a task whose pid no live task has, and which
      waits for the processor from then on, so that `BoundedWaiting` holds of it. It stores past the GDT
      exactly in slots 62 and 63. A caller can tell success from failure exactly when the pid is not the
      largest word, and by its sign exactly when it is below 2^31. */
  lemma ForkTaskOk(s: Sys, memory: bool)
    requires Inv(s)
    ensures var (s', r) := ForkTask(s, memory); var nr := FreeSlot(s.ts, 0);
      && Inv(s') && s'.cur == s.cur && !Used(s.ts, s'.last)
      && (CanFork(s, memory) <==> memory && exists i :: 0 <= i < NR_TASKS && s.ts[i].Free?)
      && (!CanFork(s, memory) ==> r == -1 && s' == s.(last := s'.last))
      && (CanFork(s, memory) ==>
            && s.ts[nr].Free? && s'.ts == s.ts[nr := Busy(Newborn(s'.last, s.ts[s.cur].t.priority))]
            && Waiting(s', nr)
            && D.Own(s'.gdt, nr) && (s'.gdt.beyond == s.gdt.beyond <==> nr <= 61)
            && r % WORD == s'.last && (r == -1 <==> s'.last == WORD - 1) && (r < 0 <==> s'.last >= 0x8000_0000))
  {
    hide Described, DistinctPids, D.Install, D.Own, D.Fits;
    var n := FreshPid(s.ts, Nth(s.last, 1));
    ForkKeeps(s, memory);
    assert CanFork(s, memory) ==> FreeSlot(s.ts, 0) != s.cur && FreeSlot(s.ts, 0) != 0;
  }

  lemma ForkKeeps(s: Sys, memory: bool)
    requires Inv(s) && !Used(s.ts, FirstUnused(s.ts, Nth(s.last, 1), NR_TASKS))
    requires FirstUnused(s.ts, Nth(s.last, 1), NR_TASKS) < WORD
    ensures var s' := ForkTask(s, memory).0; var nr := FreeSlot(s.ts, 0);
      && Inv(s')
      && (CanFork(s, memory) ==> D.Own(s'.gdt, nr) && (s'.gdt.beyond == s.gdt.beyond <==> nr <= 61))
  {
    var (s', r) := ForkTask(s, memory);
    if CanFork(s, memory) {
      assert forall i | 0 <= i < NR_TASKS && s.ts[i].Busy? :: s.ts[i].t.pid != s'.last;
      InstallKeeps(s, s'.ts);
    }
  }

  lemma InstallKeeps(s: Sys, ts': seq<Slot>)
    requires |s.ts| == NR_TASKS && Described(s.ts, s.gdt) && FreeSlot(s.ts, 0) < NR_TASKS
    requires var nr := FreeSlot(s.ts, 0); |ts'| == NR_TASKS && ts' == s.ts[nr := ts'[nr]] && ts'[nr].Busy?
    ensures var nr := FreeSlot(s.ts, 0); var g := D.Install(s.gdt, nr);
      Described(ts', g) && D.Own(g, nr) && (g.beyond == s.gdt.beyond <==> nr <= 61)
  {
    var nr := FreeSlot(s.ts, 0);
    forall i: nat | i < NR_TASKS && ts'[i].Busy? ensures D.Own(D.Install(s.gdt, nr), i) {
      D.InstallOk(s.gdt, nr, i);
    }
  }

  lemma StepInv(s: Sys, e: Event)
    requires Inv(s) && Enabled(s, e)
    ensures Inv(Step(s, e))
  {
    hide Schedule, Refill, FirstUnused, FreeSlot, ForkTask, Described;
    if !e.Fork? {
      DescribedKept(s.ts, s.ts[s.cur := WithCounter(s.ts[s.cur], Dec32(s.ts[s.cur].t.counter))], s.gdt);
      if e.Sleep? { DescribedKept(s.ts, s.ts[s.cur := WithState(s.ts[s.cur], e.st)], s.gdt); }
      if e.Wake? { DescribedKept(s.ts, s.ts[e.i := WithState(s.ts[e.i], Running)], s.gdt); }
    }
    match e
    case Tick =>
      var c := Dec32(s.ts[s.cur].t.counter);
      if c <= 0 { SwitchInv(s.(ts := s.ts[s.cur := WithCounter(s.ts[s.cur], c)])); }
    case Sleep(st) => SwitchInv(s.(ts := s.ts[s.cur := WithState(s.ts[s.cur], st)]));
    case Resched => SwitchInv(s);
    case Wake(i) =>
    case Fork(memory) => ForkTaskOk(s, memory);
  }

  /** A fork that succeeds keeps to the GDT. */
  predicate Contained(s: Sys, e: Event)
    requires |s.ts| == NR_TASKS
  {
    e.Fork? && CanFork(s, e.memory) ==> D.Fits(FreeSlot(s.ts, 0))
  }

  /** Events that can happen one after the other. Nothing is said of what follows a store past the GDT. */
  predicate Legal(s: Sys, es: seq<Event>)
    requires Inv(s)
    decreases |es|
  {
    es == [] || (Enabled(s, es[0]) && Contained(s, es[0]) && (StepInv(s, es[0]); Legal(Step(s, es[0]), es[1..])))
  }

  /** From any good state, over every run: pids stay distinct, counters stay between 0 and the
      priority, and whoever runs has time left. */
  function After(s: Sys, es: seq<Event>): (r: Sys)
    requires Inv(s) && Legal(s, es)
    ensures Inv(r)
    decreases |es|
  {
    if es == [] then s else (StepInv(s, es[0]); After(Step(s, es[0]), es[1..]))
  }

  lemma InitialInv(s: Sys)
    requires Initial(s)
    ensures Inv(s)
  {
  }

  // ---------- a fork whose result says that it failed ----------

  /** The pid a fork will give: the words passed over are used, and it is the first that is not. */
  lemma NextPid(s: Sys) returns (pid: nat)
    requires Inv(s)
    ensures pid == FirstUnused(s.ts, Nth(s.last, 1), NR_TASKS) < WORD && !Used(s.ts, pid)
    ensures pid > s.last ==> forall v | s.last < v < pid :: Used(s.ts, v)
    ensures pid <= s.last ==>
      && pid <= NR_TASKS && s.last >= WORD - 1 - NR_TASKS
      && (forall v | s.last < v < WORD :: Used(s.ts, v)) && forall v: nat | v < pid :: Used(s.ts, v)
  {
    var v0 := Nth(s.last, 1);
    var n := FreshPid(s.ts, v0);
    pid := Nth(v0, n);
    forall v | s.last < v < WORD && (pid <= s.last || v < pid) ensures Used(s.ts, v) {
      var l: nat := v - s.last - 1;
      assert Nth(v0, l) == v && l < n;
    }
    forall v: nat | pid <= s.last && v < pid ensures Used(s.ts, v) {
      var l: nat := v + WORD - s.last - 1;
      assert Nth(v0, l) == v && l < n;
    }
  }

  /** last_pid moves on to that word, whether the fork succeeds or not. */
  lemma LastPid(s: Sys, memory: bool)
    requires Inv(s)
    ensures var v := ForkTask(s, memory).0.last;
      && v < WORD && !Used(s.ts, v) && v != s.last
      && forall u: nat | Between(s.last, u, v) :: Used(s.ts, u)
  {
    hide Inv, Used, FirstUnused;
    var pid := NextPid(s);
  }

  /** u comes after `from` and before `to`, with 0 after the largest word. */
  predicate Between(from: nat, u: nat, to: nat) {
    if from < to then from < u < to else from < u < WORD || u < to
  }

  /** A fork that succeeds returns -1 exactly when every pid from last_pid on is in use but the largest. */
  lemma MinusOne(s: Sys)
    requires Inv(s) && CanFork(s, true)
    ensures ForkTask(s, true).1 == -1 <==>
      s.last < WORD - 1 && !Used(s.ts, WORD - 1) && forall v | s.last < v < WORD - 1 :: Used(s.ts, v)
  {
    hide Inv, Used, FirstUnused;
    var pid := NextPid(s);
    assert pid != WORD - 1 && s.last < pid ==> s.last < pid < WORD - 1;
  }

  /** It returns a negative number exactly when no pid below 2^31 is left after last_pid, or, past
      2^31 - 1, when any pid is left before the word wraps around. */
  lemma Negative(s: Sys)
    requires Inv(s) && CanFork(s, true)
    ensures ForkTask(s, true).1 < 0 <==>
      if s.last < 0x7fff_ffff then forall v | s.last < v < 0x8000_0000 :: Used(s.ts, v)
      else exists v :: s.last < v < WORD && !Used(s.ts, v)
  {
    hide Inv, Used, FirstUnused;
    var pid := NextPid(s);
  }

  /** n forks that find no memory. */
  function Failures(n: nat): (es: seq<Event>)
    ensures |es| == n && forall i | 0 <= i < n :: es[i] == Fork(false)
  {
    seq(n, i => Fork(false))
  }

  /** Each moves last_pid on by one, as long as slot 0 is alone and the word does not wrap around. */
  lemma {:induction false} PidsPass(s: Sys, n: nat)
    requires Inv(s) && s.ts[0].t.pid == 0 && (forall i | 1 <= i < NR_TASKS :: s.ts[i].Free?) && s.last + n < WORD
    ensures Legal(s, Failures(n)) && After(s, Failures(n)) == s.(last := s.last + n)
    decreases n
  {
    hide Described, DistinctPids;
    if n == 0 {
      assert s.(last := s.last + 0) == s;
    } else {
      ForkTaskOk(s, false);
      var s1 := ForkTask(s, false).0;
      assert !Used(s.ts, s.last + 1);
      assert s1 == s.(last := s.last + 1);
      PidsPass(s1, n - 1);
      assert Failures(n)[1..] == Failures(n - 1);
    }
  }

  /** From power-on, 2^32 - 2 forks that fail and one that succeeds: the child is there, and its
      parent gets -1. */
  lemma SuccessAsFailure(s: Sys)
    requires Initial(s) && Inv(s)
    ensures var es := Failures(WORD - 2);
      && Legal(s, es)
      && var (r, pid) := ForkTask(After(s, es), true); pid == -1 && r.ts[1].Busy? && r.ts[1].t.pid == WORD - 1
  {
    hide Described, DistinctPids, Legal, After, D.Own, D.Install;
    PidsPass(s, WORD - 2);
    var d := s.(last := WORD - 2);
    assert !Used(d.ts, WORD - 1);
    assert FreeSlot(d.ts, 0) == 1;
  }

  // ---------- a fork past the descriptor table ----------

  function Successes(n: nat): (es: seq<Event>)
    ensures |es| == n && forall i | 0 <= i < n :: es[i] == Fork(true)
  {
    seq(n, i => Fork(true))
  }

  /** Exactly the slots below k are in use. */
  predicate Full(s: Sys, k: nat) {
    |s.ts| == NR_TASKS && forall i | 0 <= i < NR_TASKS :: s.ts[i].Busy? <==> i < k
  }

  lemma ForkFills(s: Sys, k: nat)
    requires Inv(s) && Full(s, k) && k < NR_TASKS
    ensures FreeSlot(s.ts, 0) == k && Inv(ForkTask(s, true).0) && Full(ForkTask(s, true).0, k + 1)
  {
    hide Described, DistinctPids, FirstUnused;
    ForkTaskOk(s, true);
    assert s.ts[k].Free?;
  }

  lemma {:induction false} SlotsFill(s: Sys, k: nat, n: nat)
    requires Inv(s) && Full(s, k) && k + n <= 62
    ensures Legal(s, Successes(n)) && Full(After(s, Successes(n)), k + n)
    decreases n
  {
    hide Inv, Full, ForkTask;
    if n > 0 {
      FullIsInv(s);
      ForkFills(s, k);
      SlotsFill(ForkTask(s, true).0, k + 1, n - 1);
      assert Successes(n)[1..] == Successes(n - 1);
    }
  }

  lemma FullIsInv(s: Sys)
    requires Inv(s)
    ensures |s.ts| == NR_TASKS && s.cur < NR_TASKS && s.ts[s.cur].Busy?
    ensures CanFork(s, true) <==> FreeSlot(s.ts, 0) < NR_TASKS
  {
  }

  /** From power-on, after 61 forks the next child gets slot 62, and its LDT descriptor is stored past
      the end of the GDT. */
  lemma PastTheTable(s: Sys)
    requires Initial(s) && Inv(s)
    ensures var es := Successes(61);
      && Legal(s, es) && After(s, es).gdt.beyond == {}
      && var r := ForkTask(After(s, es), true).0; r.ts[62].Busy? && r.gdt.beyond == {128}
  {
    hide DistinctPids, FirstUnused, ForkTask;
    SlotsFill(s, 1, 61);
    var d := After(s, Successes(61));
    ForkFills(d, 62);
    var r := ForkTask(d, true).0;
    assert !d.ts[62].Busy? && !d.ts[63].Busy? && r.ts[62].Busy? && !r.ts[63].Busy?;
  }

  /** The slots in TASK_RUNNING. */
  function RunningSlots(ts: seq<Slot>): (r: set<nat>)
    requires |ts| == NR_TASKS
    ensures forall i: nat :: i in r <==> i < NR_TASKS && Runnable(ts[i])
  {
    set i: nat | i < NR_TASKS && Runnable(ts[i])
  }

  /** To give up the processor takes the current task out of them, whoever is switched to. */
  lemma SleepSlots(s: Sys, st: State)
    requires Inv(s) && st != Running
    ensures RunningSlots(Step(s, Sleep(st)).ts) == RunningSlots(s.ts) - {s.cur}
    ensures Step(s, Sleep(st)).ts[s.cur].t.state == st
    ensures forall i | 0 <= i < NR_TASKS && i != s.cur && s.ts[i].Busy? ::
              Step(s, Sleep(st)).ts[i].t.(counter := 0) == s.ts[i].t.(counter := 0)
  {
    hide Described, DistinctPids, Schedule;
    ScheduleOk(s.ts[s.cur := WithState(s.ts[s.cur], st)]);
  }

  // ---------- waiting ----------

  /** Counters (or priorities) of the tasks from slot 1 on, added up. */
  function Sum(ts: seq<Slot>, priorities: bool): int {
    if |ts| <= 1 then 0 else Sum(ts[..|ts| - 1], priorities) + Weight(ts[|ts| - 1], priorities)
  }

  function Weight(s: Slot, priorities: bool): int {
    if s.Free? then 0 else if priorities then s.t.priority else s.t.counter
  }

  lemma {:induction false} SumSet(ts: seq<Slot>, i: nat, x: Slot, p: bool)
    requires i < |ts|
    ensures Sum(ts[i := x], p) == Sum(ts, p) + if i == 0 then 0 else Weight(x, p) - Weight(ts[i], p)
  {
    var n := |ts| - 1;
    if n > 0 {
      if i == n {
        assert ts[i := x][..n] == ts[..n];
      } else {
        assert ts[i := x][..n] == ts[..n][i := x];
        SumSet(ts[..n], i, x, p);
      }
    }
  }

  /** A refill turns the sum of the counters into the sum of the priorities. */
  lemma {:induction false} SumRefill(ts: seq<Slot>, p: bool)
    ensures Sum(Refill(ts), p) == Sum(ts, true)
  {
    var n := |ts| - 1;
    if n > 0 {
      SumRefill(ts[..n], p);
      assert Refill(ts)[..n] == Refill(ts[..n]);
    }
  }

  /** No single weight exceeds the sum. */
  lemma {:induction false} SumAtLeast(ts: seq<Slot>, i: nat, p: bool)
    requires 1 <= i < |ts| && forall j | 1 <= j < |ts| :: Weight(ts[j], p) >= 0
    ensures Sum(ts, p) >= Weight(ts[i], p) >= 0
  {
    var n := |ts| - 1;
    assert forall j | 1 <= j < n :: ts[..n][j] == ts[j];
    if i < n {
      SumAtLeast(ts[..n], i, p);
    } else if n > 1 {
      SumAtLeast(ts[..n], 1, p);
    }
  }

  /** A tick charged to a task takes exactly one from the counters, until it uses up the last of all
      runnable tasks' time: then the counters add up to the priorities again. */
  lemma TickCharges(s: Sys)
    requires Inv(s) && s.cur >= 1
    ensures var last := s.ts[s.cur].t.counter == 1
              && forall j | 1 <= j < NR_TASKS && j != s.cur && Runnable(s.ts[j]) :: s.ts[j].t.counter == 0;
      Sum(Step(s, Tick).ts, false) == if last then Sum(s.ts, true) else Sum(s.ts, false) - 1
  {
    hide Sum, Described, DistinctPids;
    var c := s.ts[s.cur].t.counter - 1;
    var x := WithCounter(s.ts[s.cur], c);
    SumSet(s.ts, s.cur, x, false);
    SumSet(s.ts, s.cur, x, true);
    if c == 0 {
      var ts := s.ts[s.cur := x];
      ScheduleOk(ts);
      SumRefill(ts, false);
      assert Runnable(ts[s.cur]) && ts[s.cur].t.counter == 0;
      assert forall j | 1 <= j < NR_TASKS && j != s.cur :: ts[j] == s.ts[j];
      assert Exhausted(ts) <==>
        forall j | 1 <= j < NR_TASKS && j != s.cur && Runnable(s.ts[j]) :: s.ts[j].t.counter == 0;
    }
  }

  /** Ticks slot 0 may still keep the processor for. Its counter is never refilled: at the least
      32-bit value it wraps around. */
  function Lag(s: Sys): nat
    requires s.cur < |s.ts| && s.ts[s.cur].Busy?
  {
    if s.cur != 0 then 0
    else
      var c := s.ts[0].t.counter;
      if c <= -0x8000_0000 then 0x8000_0000 else if c <= 1 then 1 else c
  }

  /** Slot i can run and is not running. */
  predicate Waiting(s: Sys, i: nat) {
    1 <= i < |s.ts| && Runnable(s.ts[i]) && s.cur != i
  }

  /** Time slices that can be used up before slot i runs: the others' counters, and a whole round
      more when i has to wait for the refill. */
  function Ahead(ts: seq<Slot>, i: nat): int
    requires i < |ts| && ts[i].Busy?
  {
    Sum(ts, false) + if ts[i].t.counter > 0 then -ts[i].t.counter else Sum(ts, true) - ts[i].t.priority
  }

  /** Ticks until slot i runs, if nobody forks. */
  function Bound(s: Sys, i: nat): int
    requires s.cur < |s.ts| && s.ts[s.cur].Busy? && Waiting(s, i)
  {
    Lag(s) + Ahead(s.ts, i)
  }

  /** The time slice that a fork adds. */
  function Added(s: Sys, e: Event): int
    requires |s.ts| == NR_TASKS && s.cur < NR_TASKS && s.ts[s.cur].Busy?
  {
    if e.Fork? && CanFork(s, e.memory) then s.ts[s.cur].t.priority else 0
  }

  /** How often a new task can use a slice up in between: before the refill, and after it. */
  function Rounds(ts: seq<Slot>, i: nat): nat
    requires i < |ts| && ts[i].Busy?
  {
    if ts[i].t.counter > 0 then 1 else 2
  }

  lemma AheadNonneg(ts: seq<Slot>, i: nat)
    requires Good(ts) && 1 <= i < NR_TASKS && ts[i].Busy?
    ensures Ahead(ts, i) >= 0
  {
    SumAtLeast(ts, i, false);
    SumAtLeast(ts, i, true);
  }

  /** schedule with slot i runnable: it picks a task, and i is no worse off. */
  lemma SwitchAhead(s: Sys, i: nat)
    requires Good(s.ts) && 1 <= i < NR_TASKS && Runnable(s.ts[i])
    ensures var r := Switch(s);
      && r.cur != 0 && |r.ts| == NR_TASKS && Runnable(r.ts[i])
      && Ahead(r.ts, i) <= Ahead(s.ts, i) && Rounds(r.ts, i) <= Rounds(s.ts, i)
  {
    ScheduleOk(s.ts);
    SumRefill(s.ts, false);
    SumRefill(s.ts, true);
    SumAtLeast(s.ts, i, false);
  }

  /** Only the slot that the event sets changes, so only its weight matters. */
  lemma AheadSet(ts: seq<Slot>, k: nat, x: Slot, i: nat)
    requires k < |ts| && i < |ts| && k != i && ts[i].Busy?
    ensures var added := if k == 0 then 0 else Weight(x, false) - Weight(ts[k], false);
      var slices := if k == 0 || ts[i].t.counter > 0 then 0 else Weight(x, true) - Weight(ts[k], true);
      Ahead(ts[k := x], i) == Ahead(ts, i) + added + slices
  {
    SumSet(ts, k, x, false);
    SumSet(ts, k, x, true);
  }

  /** s passes to r in at least n ticks' time, with `added` more time in the slices of new tasks. */
  predicate Progress(s: Sys, r: Sys, i: nat, n: int, added: int) {
    && s.cur < |s.ts| && s.ts[s.cur].Busy? && Waiting(s, i)
    && r.cur < |r.ts| && r.ts[r.cur].Busy? && Waiting(r, i)
    && Rounds(r.ts, i) <= Rounds(s.ts, i)
    && Bound(r, i) + n <= Bound(s, i) + Rounds(s.ts, i) * added
  }

  lemma TickProgress(s: Sys, i: nat)
    requires Inv(s) && Waiting(s, i) && Step(s, Tick).cur != i
    ensures Progress(s, Step(s, Tick), i, 1, 0)
  {
    hide Schedule, Refill, Sum, Described, DistinctPids;
    StepInv(s, Tick);
    var c := Dec32(s.ts[s.cur].t.counter);
    AheadSet(s.ts, s.cur, WithCounter(s.ts[s.cur], c), i);
    if c <= 0 { SwitchAhead(s.(ts := s.ts[s.cur := WithCounter(s.ts[s.cur], c)]), i); }
  }

  lemma SleepProgress(s: Sys, st: State, i: nat)
    requires Inv(s) && Waiting(s, i) && Step(s, Sleep(st)).cur != i
    ensures Progress(s, Step(s, Sleep(st)), i, 0, 0)
  {
    hide Schedule, Refill, Sum, Described, DistinctPids;
    StepInv(s, Sleep(st));
    AheadSet(s.ts, s.cur, WithState(s.ts[s.cur], st), i);
    SwitchAhead(s.(ts := s.ts[s.cur := WithState(s.ts[s.cur], st)]), i);
  }

  lemma WakeProgress(s: Sys, j: nat, i: nat)
    requires Inv(s) && Waiting(s, i) && Enabled(s, Wake(j))
    ensures Progress(s, Step(s, Wake(j)), i, 0, 0)
  {
    hide Sum;
    if j != i { AheadSet(s.ts, j, WithState(s.ts[j], Running), i); }
    else { assert s.ts[i := WithState(s.ts[i], Running)] == s.ts; }
  }

  lemma ForkProgress(s: Sys, memory: bool, i: nat)
    requires Inv(s) && Waiting(s, i)
    ensures Progress(s, Step(s, Fork(memory)), i, 0, Added(s, Fork(memory)))
  {
    hide FirstUnused, FreeSlot, Sum, Described, DistinctPids, D.Own, D.Install;
    ForkTaskOk(s, memory);
    var r := ForkTask(s, memory).0;
    if CanFork(s, memory) { AheadSet(s.ts, FreeSlot(s.ts, 0), Busy(Child(s.ts[s.cur].t, r.last)), i); }
  }

  /** While slot i waits, a tick lowers the bound and only a fork can raise it. */
  lemma BoundStep(s: Sys, e: Event, i: nat)
    requires Inv(s) && Enabled(s, e) && Waiting(s, i) && Step(s, e).cur != i
    ensures Inv(Step(s, e)) && Progress(s, Step(s, e), i, if e.Tick? then 1 else 0, Added(s, e))
  {
    hide Schedule, Refill, FirstUnused, FreeSlot, Sum, ForkTask, Described, DistinctPids;
    StepInv(s, e);
    match e
    case Tick => TickProgress(s, i);
    case Sleep(st) => SleepProgress(s, st, i);
    case Resched => SwitchAhead(s, i);
    case Wake(j) => WakeProgress(s, j, i);
    case Fork(memory) => ForkProgress(s, memory, i);
  }

  /** Slot i never runs during es. */
  predicate NeverRuns(s: Sys, es: seq<Event>, i: nat)
    requires Inv(s) && Legal(s, es)
    decreases |es|
  {
    s.cur != i && (es == [] || (StepInv(s, es[0]); NeverRuns(Step(s, es[0]), es[1..], i)))
  }

  function Ticks(es: seq<Event>): nat {
    if es == [] then 0 else (if es[0].Tick? then 1 else 0) + Ticks(es[1..])
  }

  /** Time slices added by the forks of a run. */
  function Forked(s: Sys, es: seq<Event>): (n: int)
    requires Inv(s) && Legal(s, es)
    ensures n >= 0
    decreases |es|
  {
    if es == [] then 0 else (StepInv(s, es[0]); Added(s, es[0]) + Forked(Step(s, es[0]), es[1..]))
  }

  lemma BoundNonneg(s: Sys, i: nat)
    requires Inv(s) && Waiting(s, i)
    ensures Bound(s, i) >= 0
  {
    AheadNonneg(s.ts, i);
  }

  lemma Scale(k: nat, n: nat, a: int, b: nat)
    requires k <= n
    ensures k * b <= n * b && n * (a + b) == n * a + n * b
  {
  }

  /** Bounded waiting: a task that can run does so within `Bound` ticks, plus the slices of the
      tasks forked meanwhile, whatever sleeps, wake-ups and forks of the others happen. With time
      of its own left, the bound is the sum of the others' counters. */
  lemma {:induction false} BoundedWaiting(s: Sys, es: seq<Event>, i: nat)
    requires Inv(s) && Legal(s, es) && Waiting(s, i) && NeverRuns(s, es, i)
    ensures Ticks(es) <= Bound(s, i) + Rounds(s.ts, i) * Forked(s, es)
    decreases |es|
  {
    hide Bound, Step, Rounds, Added, DistinctPids;
    BoundNonneg(s, i);
    if es != [] {
      BoundStep(s, es[0], i);
      var r := Step(s, es[0]);
      BoundedWaiting(r, es[1..], i);
      Scale(Rounds(r.ts, i), Rounds(s.ts, i), Added(s, es[0]), Forked(r, es[1..]));
    }
  }
}
