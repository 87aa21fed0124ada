/** Any number of processes in getblk, bread, brelse and syncDev (fs/buffer.c) and in the request
    queue (kernel/blk_drv/ll_rw_blk.c), interleaved. A process gives up the processor only where a
    step ends, which includes every sleepOn; the checks and updates inside one step are not
    interrupted. A sleeper may look again at any time, so wake-ups need not be modelled. */
module BufferCache {
  import opened BufferModel

  type Data = seq<bv8>
  type Key = (nat, nat)
  type Store = map<Key, Data>

  /** A block that was never written holds some fixed contents. */
  function At(s: Store, dev: nat, block: nat): Data {
    if (dev, block) in s then s[(dev, block)] else []
  }

  /** A call of getblk, made by bread or not. */
  datatype Req = Req(dev: nat, block: nat, read: bool)

  /** Where syncDev was called from: getblk with its victim, or a process of its own accord. */
  datatype Back = ToVictim(q: Req, b: nat) | ToCaller

  /** Why a request is made: for bread, or for syncDev, which then goes on at its i-th look. */
  datatype Why = ForRead(q: Req) | ForSync(dev: nat, i: nat, back: Back)

  /** Where a process is. */
  datatype Pc =
    | Idle
    | Get(q: Req)                              // at `repeat`, or asleep on BUFFER_WAIT
    | Hashed(q: Req, b: nat)                   // getHashTable: waiting for the lock of b, which it holds
    | Taking(q: Req, b: nat)                   // getblk: waiting for the lock of the victim b
    | Syncing(dev: nat, i: nat, back: Back)    // syncDev, at buffer i % N of pass i / N
    | Locking(b: nat, why: Why)                // makeRequest: lockBuffer
    | Queueing(b: nat, why: Why)               // makeRequest: b locked, no request free yet
    | Reading(q: Req, b: nat)                  // bread: waiting for its READ
    | Releasing(b: nat, failed: bool)          // brelse: waiting for the lock

  /** What the last call of a process returned. */
  datatype Result = Nothing | Got(b: nat) | Failed

  datatype Proc = Proc(held: multiset<nat>, pc: Pc, got: Result)

  datatype Rw = Read | Write

  /** Headers, contents, order of the free list, disk, requests under way, processes. */
  datatype Cache = Cache(
    hs: seq<Header>, data: seq<Data>, order: seq<nat>, disk: Store, flight: map<nat, Rw>, procs: seq<Proc>)

  datatype Op =
    | GetBlk(dev: nat, block: nat)
    | BRead(dev: nat, block: nat)
    | BRelse(b: nat)
    | SyncDev(dev: nat)
    | Modify(b: nat, d: Data)      // a holder of an up-to-date buffer changes it and sets b_dirt

  /** A process calls, a process goes on, or the device finishes a request. `refuse`: the device
      does not exist; `full`: no request structure is free. */
  datatype Event = Call(p: nat, op: Op) | Run(p: nat, refuse: bool, full: bool) | Complete(b: nat, ok: bool)

  // ---------- steps ----------

  function Find(hs: seq<Header>, dev: nat, block: nat, k: nat): (b: Option<nat>)
    requires k <= |hs|
    ensures b.None? ==> forall j | k <= j < |hs| :: !Keyed(hs[j], dev, block)
    ensures b.Some? ==> k <= b.value < |hs| && Keyed(hs[b.value], dev, block)
    decreases |hs| - k
  {
    if k == |hs| then None else if Keyed(hs[k], dev, block) then Some(k) else Find(hs, dev, block, k + 1)
  }

  function WithPc(c: Cache, p: nat, pc: Pc): Cache
    requires p < |c.procs|
  {
    c.(procs := c.procs[p := c.procs[p].(pc := pc)])
  }

  function WithHead(c: Cache, b: nat, h: Header): Cache
    requires b < |c.hs|
  {
    c.(hs := c.hs[b := h])
  }

  /** The call returns buffer b, which the process now holds. */
  function Return(c: Cache, p: nat, b: nat): Cache
    requires p < |c.procs|
  {
    c.(procs := c.procs[p := Proc(c.procs[p].held + multiset{b}, Idle, Got(b))])
  }

  /** getblk has its buffer: it returns, or bread looks whether it must read. */
  function Obtained(c: Cache, p: nat, q: Req, b: nat, refuse: bool): Cache
    requires p < |c.procs| && b < |c.hs|
  {
    if !q.read || c.hs[b].uptodate then Return(c, p, b)
    else WithPc(c, p, if refuse then Reading(q, b) else Locking(b, ForRead(q)))
  }

  function AfterIo(b: nat, why: Why): Pc {
    match why
    case ForRead(q) => Reading(q, b)
    case ForSync(dev, i, back) => Syncing(dev, i, back)
  }

  /** All numbers in a program counter are buffers. */
  predicate PcOk(pc: Pc, n: nat) {
    match pc
    case Hashed(_, b) => b < n
    case Taking(_, b) => b < n
    case Syncing(_, i, back) => i <= 2 * n && BackOk(back, n)
    case Locking(b, why) => b < n && (why.ForSync? ==> why.i <= 2 * n && BackOk(why.back, n))
    case Queueing(b, why) => b < n && (why.ForSync? ==> why.i <= 2 * n && BackOk(why.back, n))
    case Reading(_, b) => b < n
    case Releasing(b, _) => b < n
    case _ => true
  }

  predicate BackOk(k: Back, n: nat) { k.ToVictim? ==> k.b < n }

  predicate Shape(c: Cache) {
    && |c.data| == |c.hs| > 0 && Order(c.order, |c.hs|)
    && (forall b | b in c.flight :: b < |c.hs|)
    && (forall p | 0 <= p < |c.procs| :: PcOk(c.procs[p].pc, |c.hs|) && forall b | b in c.procs[p].held :: b < |c.hs|)
  }

  predicate Enabled(c: Cache, e: Event) {
    match e
    case Call(p, op) => p < |c.procs| && c.procs[p].pc.Idle? &&
      (match op
       case BRelse(b) => b in c.procs[p].held
       case Modify(b, _) => b in c.procs[p].held && b < |c.hs| && !c.hs[b].lock && c.hs[b].uptodate
       case _ => true)
    case Run(p, _, _) => p < |c.procs| && !c.procs[p].pc.Idle?
    case Complete(b, _) => b in c.flight
  }

  /** The commit of getblk: the victim becomes the buffer of the block and goes to the tail. */
  function Commit(c: Cache, q: Req, b: nat): Cache
    requires Shape(c) && b < |c.hs|
  {
    c.(hs := c.hs[b := Header(q.dev % SHORT, q.block, false, false, 1, c.hs[b].lock)], order := MoveToTail(c.order, b))
  }

  /** One segment of the program of process p. */
  function Advance(c: Cache, p: nat, refuse: bool, full: bool): (r: Cache)
    requires Shape(c) && Enabled(c, Run(p, refuse, full))
    ensures |r.procs| == |c.procs| && |r.hs| == |c.hs| && |r.data| == |c.data|
  {
    var n := |c.hs|;
    match c.procs[p].pc
    case Get(q) =>
      (match Find(c.hs, q.dev, q.block, 0)
       case Some(b) => WithPc(WithHead(c, b, c.hs[b].(count := (c.hs[b].count + 1) % BYTE)), p, Hashed(q, b))
       case None => match Best(c.hs, c.order, |c.order|) case Some(b) => WithPc(c, p, Taking(q, b)) case None => c)
    case Hashed(q, b) =>
      if c.hs[b].lock then c
      else if c.hs[b].dev == q.dev && c.hs[b].block == q.block then Obtained(c, p, q, b, refuse)
      else WithPc(WithHead(c, b, c.hs[b].(count := (c.hs[b].count + BYTE - 1) % BYTE)), p, Get(q))
    case Taking(q, b) =>
      if c.hs[b].lock then c
      else if c.hs[b].count != 0 then WithPc(c, p, Get(q))
      else if c.hs[b].dirt then WithPc(c, p, Syncing(c.hs[b].dev, 0, ToVictim(q, b)))
      else if Find(c.hs, q.dev, q.block, 0).Some? then WithPc(c, p, Get(q))
      else Obtained(Commit(c, q, b), p, q, b, refuse)
    case Syncing(dev, i, back) =>
      if i == 2 * n then WithPc(c, p, match back case ToVictim(q, b) => Taking(q, b) case ToCaller => Idle)
      else
        var b := i % n;
        if c.hs[b].dev != dev then WithPc(c, p, Syncing(dev, i + 1, back))
        else if c.hs[b].lock then c
        else if c.hs[b].dirt && !refuse then WithPc(c, p, Locking(b, ForSync(dev, i + 1, back)))
        else WithPc(c, p, Syncing(dev, i + 1, back))
    case Locking(b, why) =>
      if c.hs[b].lock then c
      else if (if why.ForRead? then c.hs[b].uptodate else !c.hs[b].dirt) then WithPc(c, p, AfterIo(b, why))
      else WithPc(WithHead(c, b, c.hs[b].(lock := true)), p, Queueing(b, why))
    case Queueing(b, why) =>
      if full then c
      else
        var c1 := WithHead(c, b, c.hs[b].(dirt := false));
        WithPc(c1.(flight := c1.flight[b := if why.ForRead? then Read else Write]), p, AfterIo(b, why))
    case Reading(q, b) =>
      if c.hs[b].lock then c else if c.hs[b].uptodate then Return(c, p, b) else WithPc(c, p, Releasing(b, true))
    case Releasing(b, failed) =>
      if c.hs[b].lock || c.hs[b].count == 0 then c
      else
        var c1 := WithHead(c, b, c.hs[b].(count := c.hs[b].count - 1));
        c1.(procs := c1.procs[p := c1.procs[p].(pc := Idle, got := if failed then Failed else Nothing)])
  }

  function Step(c: Cache, e: Event): (r: Cache)
    requires Shape(c) && Enabled(c, e)
    ensures |r.procs| == |c.procs| && |r.hs| == |c.hs| && |r.data| == |c.data|
  {
    match e
    case Run(p, refuse, full) => Advance(c, p, refuse, full)
    case Complete(b, ok) =>
      var h := c.hs[b];
      var c1 := WithHead(c, b, h.(uptodate := ok, lock := false)).(flight := c.flight - {b});
      if !ok then c1
      else if c.flight[b].Read? then c1.(data := c1.data[b := At(c.disk, h.dev, h.block)])
      else c1.(disk := c1.disk[(h.dev, h.block) := c.data[b]])
    case Call(p, op) =>
      match op
      case GetBlk(dev, block) => WithPc(c, p, Get(Req(dev, block, false)))
      case BRead(dev, block) => WithPc(c, p, Get(Req(dev, block, true)))
      case BRelse(b) =>
        c.(procs := c.procs[p := c.procs[p].(held := c.procs[p].held - multiset{b}, pc := Releasing(b, false))])
      case SyncDev(dev) => WithPc(c, p, Syncing(dev, 0, ToCaller))
      case Modify(b, d) => WithHead(c, b, c.hs[b].(dirt := true)).(data := c.data[b := d])
  }
}
