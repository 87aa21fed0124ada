/** The task table of kernel/process.c as it is updated in place, each method against the functions
    of `TaskModel` and `TaskRuns`. */
module TaskTables {
  import opened Limits
  import opened TaskModel
  import opened TaskRuns
  import D = Descriptors
  import W = WaitQueue

  /** The part of a PROCESS that scheduling works on. */
  class Process {
    ghost const nr: nat    // its slot
    var pid: nat
    var state: State
    var counter: int
    var priority: nat

    constructor (t: Task, ghost n: nat)
      ensures View(this) == Busy(t) && nr == n
    {
      nr := n;
      pid, state, counter, priority := t.pid, t.state, t.counter, t.priority;
    }
  }

  ghost function View(p: Process?): Slot
    reads p
  {
    if p == null then Free else Busy(Task(p.pid, p.state, p.counter, p.priority))
  }

  class TaskTable {
    const tasks: array<Process?>    // TASKS
    var current: Process            // CURRENT
    var lastPid: nat
    var ticks: nat
    const gdt: array<D.Desc>        // GDT
    ghost var beyond: set<nat>      // indices past its end that were stored to

    ghost function Procs(): set<object>
      reads tasks
    {
      set i | 0 <= i < tasks.Length && tasks[i] != null :: tasks[i]
    }

    ghost predicate Has(p: Process)
      reads tasks
    {
      p.nr < tasks.Length && tasks[p.nr] == p
    }

    /** CURRENT is in the table and every process is in its slot. */
    ghost predicate Valid()
      reads this, tasks
    {
      && tasks.Length == NR_TASKS && Has(current) && lastPid < WORD && gdt as object != tasks as object
      && forall i | 0 <= i < NR_TASKS && tasks[i] != null :: tasks[i].nr == i
    }

    ghost function Table(): (ts: seq<Slot>)
      requires tasks.Length == NR_TASKS
      reads tasks, Procs()
      ensures |ts| == NR_TASKS && forall i | 0 <= i < NR_TASKS :: ts[i] == View(tasks[i])
    {
      seq(NR_TASKS, i requires 0 <= i < NR_TASKS reads tasks, Procs() => View(tasks[i]))
    }

    ghost function S(): Sys
      requires Valid()
      reads this, tasks, Procs(), gdt
    {
      Sys(Table(), current.nr, lastPid, D.Gdt(gdt[..], beyond))
    }

    /** initSchedule. */
    constructor ()
      ensures Valid() && Initial(S()) && fresh(tasks) && fresh(current) && fresh(gdt) && ticks == 0
    {
      var p := new Process(Task(0, Running, 15, 15), 0);
      tasks := new Process?[NR_TASKS](i => if i == 0 then p else null);
      current, lastPid, ticks := p, 0, 0;
      var g := new D.Desc[D.GDT_SIZE](_ => D.Other);
      g[D.TssIndex(0)] := D.Tss(0);
      g[D.LdtIndex(0)] := D.Ldt(0);
      gdt, beyond := g, {};
    }

    /** GDT[k] = d; nothing is known of what lies past the end. */
    method SetGdtDesc(k: nat, d: D.Desc)
      requires Valid()
      modifies gdt, this`beyond
      ensures Valid() && S() == old(S()).(gdt := D.Store(old(S()).gdt, k, d))
    {
      if k < gdt.Length { gdt[k] := d; } else { beyond := beyond + {k}; }
    }

    // ---------- findEmptyProcess ----------

    method FindEmptyProcess() returns (nr: int)
      requires Valid()
      modifies this`lastPid
      ensures Valid() && S() == old(S()).(last := FirstUnused(old(Table()), Nth(old(lastPid), 1), NR_TASKS))
      ensures nr == if FreeSlot(old(Table()), 0) < NR_TASKS then FreeSlot(old(Table()), 0) else -1
    {
      ghost var ts, v := Table(), Nth(lastPid, 1);
      ghost var restarts := 0;
      lastPid := if lastPid + 1 == WORD then 0 else lastPid + 1;
      var i := 0;
      while i < NR_TASKS
        invariant 0 <= i <= NR_TASKS && 0 <= restarts <= NR_TASKS
        invariant Table() == ts && lastPid == Nth(v, restarts) && lastPid < WORD
        invariant forall k: nat | k < restarts :: Used(ts, Nth(v, k))
        invariant forall k | 0 <= k < i :: !(ts[k].Busy? && ts[k].t.pid == lastPid)
        decreases NR_TASKS - restarts, NR_TASKS - i
      {
        if tasks[i] != null && tasks[i].pid == lastPid {
          assert ts[i].Busy? && Used(ts, Nth(v, restarts));
          if restarts == NR_TASKS { Pigeon(ts, v, restarts + 1); }
          lastPid := if lastPid + 1 == WORD then 0 else lastPid + 1;
          restarts := restarts + 1;
          i := -1;
        }
        i := i + 1;
      }
      FoundUnused(ts, v, restarts, NR_TASKS);
      i := 0;
      while i < NR_TASKS
        invariant 0 <= i <= NR_TASKS && FreeSlot(ts, 0) == FreeSlot(ts, i)
      {
        if tasks[i] == null { return i; }
        i := i + 1;
      }
      return -1;
    }

    // ---------- schedule ----------

    method Scan() returns (c: int, next: nat)
      requires Valid()
      ensures (c, next) == Pick(Table())
    {
      c, next := -1, 0;
      var i := 1;
      while i < NR_TASKS
        invariant 1 <= i <= NR_TASKS && TaskModel.Scan(Table(), i, c, next) == Pick(Table())
      {
        if tasks[i] != null && tasks[i].state == Running && tasks[i].counter > c {
          c, next := tasks[i].counter, i;
        }
        i := i + 1;
      }
    }

    method Recharge()
      requires Valid()
      modifies Procs()
      ensures Valid() && S() == old(S()).(ts := Refill(old(Table()))) && Procs() == old(Procs())
    {
      var i := 1;
      while i < NR_TASKS
        invariant 1 <= i <= NR_TASKS && Valid()
        invariant forall k | 1 <= k < i :: View(tasks[k]) == Refill(old(Table()))[k]
        invariant forall k | 0 <= k < NR_TASKS && (k == 0 || i <= k) :: View(tasks[k]) == old(Table())[k]
      {
        if tasks[i] != null { tasks[i].counter := tasks[i].priority; }
        i := i + 1;
      }
    }

    /** The endless loop of schedule, up to the switch. Without good counters it would not end. */
    method Choose() returns (next: nat)
      requires Valid() && Good(Table())
      modifies Procs()
      ensures Valid() && S() == old(S()).(ts := TaskModel.Schedule(old(Table())).0) && Procs() == old(Procs())
      ensures next == TaskModel.Schedule(old(Table())).1
    {
      hide Refill, Pick, Good;
      ghost var ts := Table();
      var c;
      c, next := Scan();
      while c == 0
        invariant Valid() && Procs() == old(Procs())
        invariant || (Table() == ts && (c, next) == Pick(ts))
                  || (Table() == Refill(ts) && Pick(ts).0 == 0 && (c, next) == Pick(Refill(ts)))
        decreases if c == 0 then 1 else 0
      {
        StopsInTime(ts);
        Recharge();
        c, next := Scan();
      }
    }

    method Schedule()
      requires Valid() && Good(Table())
      modifies this`current, Procs()
      ensures Valid() && S() == Switch(old(S())) && Procs() == old(Procs())
    {
      ScheduleOk(Table());
      var next := Choose();
      current := tasks[next];
    }

    // ---------- callers of schedule ----------

    method TimerHandler()
      requires Valid() && Inv(S())
      modifies this`current, this`ticks, Procs()
      ensures Valid() && S() == Step(old(S()), Tick) && ticks == (old(ticks) + 1) % WORD
    {
      hide Described, DistinctPids, Refill, TaskModel.Schedule;
      ticks := (ticks + 1) % WORD;
      ghost var s := S();
      current.counter := Dec32(current.counter);
      assert Table() == s.ts[s.cur := WithCounter(s.ts[s.cur], current.counter)];
      if current.counter <= 0 { Schedule(); }
    }

    /** sysPause, and the part of sleepOn up to the switch. */
    method GiveUp(st: State)
      requires Valid() && Inv(S())
      modifies this`current, Procs()
      ensures Valid() && S() == Step(old(S()), Sleep(st))
    {
      hide Described, DistinctPids, Refill, TaskModel.Schedule;
      ghost var s := S();
      current.state := st;
      assert Table() == s.ts[s.cur := WithState(s.ts[s.cur], st)];
      Schedule();
    }

    /** copyProcess for a slot found empty, once there is memory. */
    method CopyProcess(nr: nat) returns (r: int)
      requires Valid() && nr < NR_TASKS && tasks[nr] == null
      modifies tasks, gdt, this`beyond
      ensures Valid() && r == Signed(lastPid)
      ensures S() == old(S()).(ts := old(Table())[nr := Busy(Child(old(Table())[old(current.nr)].t, lastPid))],
                               gdt := D.Install(old(S()).gdt, nr))
    {
      hide D.Store;
      ghost var ts := Table();
      var p := new Process(Task(lastPid, Running, current.priority, current.priority), nr);
      tasks[nr] := p;
      assert Table() == ts[nr := View(p)];
      SetGdtDesc(D.TssIndex(nr), D.Tss(nr));
      SetGdtDesc(D.LdtIndex(nr), D.Ldt(nr));
      r := if lastPid < 0x8000_0000 then lastPid else lastPid - WORD;
    }

    /** sysFork; `memory` says whether memory is found for the child. */
    method SysFork(memory: bool) returns (r: int)
      requires Valid() && Inv(S())
      modifies this`lastPid, tasks, gdt, this`beyond
      ensures Valid() && (S(), r) == ForkTask(old(S()), memory)
    {
      hide Inv, FirstUnused, Child, D.Install;
      var nr := FindEmptyProcess();
      if nr == -1 || !memory { return -1; }
      assert Table()[nr].Free?;
      r := CopyProcess(nr);
    }

    // ---------- wait queues ----------

    /** The queue as `WaitQueue` sees it. */
    ghost function QueueOf(q: Head): W.Queue
      requires Valid()
      reads this, tasks, Procs(), q
    {
      W.Queue(Number(q.head), q.saved, RunningSlots(Table()))
    }

    /** sleepOn up to the switch, and what it keeps in tmp. The test meant to stop slot 0 never does. */
    method GoToSleep(q: Head) returns (tmp: Process?)
      requires Valid() && Inv(S()) && W.Enabled(QueueOf(q), W.Sleep(current.nr))
      modifies this`current, Procs(), q
      ensures Valid() && S() == Step(old(S()), Sleep(Uninterruptible))
      ensures QueueOf(q) == W.Step(old(QueueOf(q)), W.Sleep(old(current.nr))) && tmp == old(q.head)
    {
      SleepSlots(S(), Uninterruptible);
      tmp := q.head;
      q.head := current;
      q.saved := q.saved[current.nr := Number(tmp)];
      GiveUp(Uninterruptible);
    }

    /** The rest of sleepOn, when the process runs again. */
    method ComeBack(q: Head, tmp: Process?)
      requires Valid() && W.Enabled(QueueOf(q), W.Resume(current.nr)) && q.saved[current.nr] == Number(tmp)
      requires tmp != null ==> Has(tmp)
      modifies Procs(), q
      ensures Valid() && QueueOf(q) == W.Step(old(QueueOf(q)), W.Resume(current.nr))
      ensures S() == if tmp == null then old(S()) else TaskRuns.Step(old(S()), Wake(tmp.nr))
    {
      q.head := tmp;
      q.saved := q.saved - {current.nr};
      if tmp != null {
        ghost var ts := Table();
        tmp.state := Running;
        assert Table() == ts[tmp.nr := WithState(ts[tmp.nr], Running)];
      }
    }

    method WakeUp(q: Head)
      requires Valid() && (q.head != null ==> Has(q.head))
      modifies Procs(), q
      ensures Valid() && QueueOf(q) == W.Step(old(QueueOf(q)), W.Wake)
      ensures S() == if old(q.head) == null then old(S()) else TaskRuns.Step(old(S()), Wake(old(q.head).nr))
    {
      if q.head != null {
        ghost var ts, n := Table(), q.head.nr;
        q.head.state := Running;
        assert Table() == ts[n := WithState(ts[n], Running)];
        q.head := null;
      }
    }
  }

  /** A queue head, and the pointers that its sleepers keep on their stacks. */
  class Head {
    var head: Process?
    ghost var saved: map<nat, W.Ptr>
  }

  ghost function Number(p: Process?): W.Ptr {
    if p == null then W.Null else W.To(p.nr)
  }

  lemma {:induction false} FoundUnused(ts: seq<Slot>, v: nat, n: nat, k: nat)
    requires v < WORD && n <= k < WORD && (forall j: nat | j < n :: Used(ts, Nth(v, j))) && !Used(ts, Nth(v, n))
    ensures FirstUnused(ts, v, k) == Nth(v, n)
    decreases n
  {
    if n > 0 {
      assert Used(ts, Nth(v, 0));
      assert forall j: nat | j < n - 1 :: Nth(Nth(v, 1), j) == Nth(v, j + 1);
      assert Nth(Nth(v, 1), n - 1) == Nth(v, n);
      FoundUnused(ts, Nth(v, 1), n - 1, k - 1);
    }
  }
}
